/** The books a case kit keeps - which cases are out on which rules, in what order they
    are shown, and which of them the user interface can find - and what every run of
    trapped rules, idle knobs and answered cases keeps true of them. */
module KitLedger {
  import opened Nodes
  import opened Rules

  const MAX_CASES: nat := 10

  datatype Owned<R> = Owned(rule: R, whenTrapped: int)

  /** `lookup` are the keys under which the user interface finds a case of this kit;
      `lastKey` is the last key handed out. */
  datatype Ledger<R> = Ledger(modes: map<R, Mode>, cases: map<nat, Owned<R>>, ranking: seq<nat>,
                              lookup: set<nat>, lastKey: nat)

  // ----- Ranking -----

  /** The keys of the cases, each once, from the oldest to the newest. */
  ghost predicate IsRanking<R>(ranking: seq<nat>, cases: map<nat, Owned<R>>) {
    && Distinct(ranking) && Range(ranking) == cases.Keys
    && forall i, j :: 0 <= i < j < |ranking| ==> Older(cases, ranking[i], ranking[j])
  }

  predicate Older<R>(cases: map<nat, Owned<R>>, a: nat, b: nat) {
    a in cases && b in cases && cases[a].whenTrapped <= cases[b].whenTrapped
  }

  function Without(keys: seq<nat>, key: nat): seq<nat> {
    if keys == [] then []
    else Without(keys[..|keys| - 1], key) + if keys[|keys| - 1] == key then [] else [keys[|keys| - 1]]
  }

  lemma {:induction false} WithoutRange(keys: seq<nat>, key: nat)
    ensures Range(Without(keys, key)) == Range(keys) - {key}
  {
    if keys != [] {
      var front, last := keys[..|keys| - 1], keys[|keys| - 1];
      WithoutRange(front, key);
      assert Range(keys) == Range(front) + {last};
      assert Range(Without(front, key) + [last]) == Range(Without(front, key)) + {last};
    }
  }

  /** What is left is in the order it was in. */
  lemma {:induction false} WithoutOrder(keys: seq<nat>, key: nat, i: nat, j: nat) returns (a: nat, b: nat)
    requires i < j < |Without(keys, key)|
    ensures a < b < |keys| && keys[a] == Without(keys, key)[i] && keys[b] == Without(keys, key)[j]
  {
    var front := keys[..|keys| - 1];
    if j < |Without(front, key)| {
      a, b := WithoutOrder(front, key, i, j);
    } else {
      b := |keys| - 1;
      WithoutRange(front, key);
      assert Without(front, key)[i] in Range(Without(front, key));
      a :| 0 <= a < |front| && front[a] == Without(front, key)[i];
    }
  }

  lemma RankingWithout<R>(ranking: seq<nat>, cases: map<nat, Owned<R>>, key: nat)
    requires IsRanking(ranking, cases)
    ensures IsRanking(Without(ranking, key), cases - {key})
  {
    var rest := Without(ranking, key);
    WithoutRange(ranking, key);
    forall i, j | 0 <= i < j < |rest|
      ensures rest[i] != rest[j] && Older(cases - {key}, rest[i], rest[j])
    {
      var a, b := WithoutOrder(ranking, key, i, j);
      assert Older(cases, ranking[a], ranking[b]);
      assert rest[i] in Range(rest) && rest[j] in Range(rest);
    }
  }

  // ----- Events -----

  /** `Trapped` is a rule found failing; `begins` says that a case on it can begin. */
  datatype Event<R> =
    | Trapped(rule: R, time: int, begins: bool)
    | RuleIdled(rule: R, wanted: bool)
    | RulesIdled(rules: set<R>, wanted: bool)
    | Answered(key: nat, closes: bool)

  /** A case added on a rule, under a key not handed out before. */
  ghost predicate Adds<R>(s: Ledger<R>, rule: R, time: int, t: Ledger<R>) {
    && s.lastKey < t.lastKey
    && t.modes == s.modes[rule := CaseModeSet(true)]
    && t.cases == s.cases[t.lastKey := Owned(rule, time)]
    && t.lookup == s.lookup + {t.lastKey}
    && IsRanking(t.ranking, t.cases)
  }

  function Released<R>(s: Ledger<R>, key: nat): Ledger<R>
    requires key in s.cases
  {
    s.(modes := s.modes[s.cases[key].rule := CaseModeSet(false)], cases := s.cases - {key},
       ranking := Without(s.ranking, key), lookup := s.lookup - {key})
  }

  function IdledIn<R>(modes: map<R, Mode>, rules: set<R>, wanted: bool): map<R, Mode> {
    map r | r in modes :: if r in rules then IdleModeSet(modes[r], wanted) else modes[r]
  }

  ghost predicate TakesCase<R>(s: Ledger<R>, rule: R, begins: bool) {
    rule in s.modes && s.modes[rule] == Auto && |s.cases| < MAX_CASES && begins
  }

  ghost predicate Next<R>(s: Ledger<R>, e: Event<R>, t: Ledger<R>) {
    match e
    case Trapped(rule, time, begins) =>
      rule in s.modes && if TakesCase(s, rule, begins) then Adds(s, rule, time, t) else t == s
    case RuleIdled(rule, wanted) => t == s.(modes := IdledIn(s.modes, {rule}, wanted))
    case RulesIdled(rules, wanted) => t == s.(modes := IdledIn(s.modes, rules, wanted))
    case Answered(key, closes) => if key in s.cases && closes then t == Released(s, key) else t == s
  }

  // ----- What every run keeps -----

  ghost predicate HasCase<R>(cases: map<nat, Owned<R>>, rule: R) {
    exists k :: k in cases && cases[k].rule == rule
  }

  /** A rule is in case mode exactly while a case refers to it, and never two do. */
  ghost predicate CasesHoldRules<R>(modes: map<R, Mode>, cases: map<nat, Owned<R>>) {
    && (forall k :: k in cases ==> cases[k].rule in modes && modes[cases[k].rule] == InCase)
    && (forall j, k :: j in cases && k in cases && j != k ==> cases[j].rule != cases[k].rule)
    && (forall r {:trigger HasCase(cases, r)} :: r in modes && modes[r] == InCase ==> HasCase(cases, r))
  }

  ghost predicate Kept<R>(s: Ledger<R>) {
    && CasesHoldRules(s.modes, s.cases)
    && |s.cases| <= MAX_CASES
    && IsRanking(s.ranking, s.cases)
    && s.lookup == s.cases.Keys
    && forall k :: k in s.cases ==> k <= s.lastKey
  }

  lemma AddHolds<R>(modes: map<R, Mode>, cases: map<nat, Owned<R>>, rule: R, key: nat, time: int)
    requires CasesHoldRules(modes, cases) && key !in cases && rule in modes && modes[rule] == Auto
    ensures CasesHoldRules(modes[rule := InCase], cases[key := Owned(rule, time)])
  {
    var more, taken := cases[key := Owned(rule, time)], modes[rule := InCase];
    forall k | k in cases
      ensures cases[k].rule != rule
    {
      assert modes[cases[k].rule] == InCase;
    }
    forall r | r in taken && taken[r] == InCase
      ensures HasCase(more, r)
    {
      if r == rule {
        assert more[key].rule == rule;
      } else {
        assert HasCase(cases, r);
        var k :| k in cases && cases[k].rule == r;
        assert more[k].rule == r;
      }
    }
  }

  lemma AddKeeps<R>(s: Ledger<R>, rule: R, time: int, t: Ledger<R>)
    requires Kept(s) && TakesCase(s, rule, true) && Adds(s, rule, time, t)
    ensures Kept(t)
  {
    assert t.lastKey !in s.cases;
    AddHolds(s.modes, s.cases, rule, t.lastKey, time);
    assert t.cases.Keys == s.cases.Keys + {t.lastKey};
    assert |t.cases.Keys| == |s.cases.Keys| + 1;
  }

  lemma ReleaseKeeps<R>(s: Ledger<R>, key: nat)
    requires Kept(s) && key in s.cases
    ensures Kept(Released(s, key))
    ensures s.modes[s.cases[key].rule] == InCase && Released(s, key).modes[s.cases[key].rule] == Auto
  {
    var t := Released(s, key);
    RankingWithout(s.ranking, s.cases, key);
    forall r | r in t.modes && t.modes[r] == InCase
      ensures HasCase(t.cases, r)
    {
      assert HasCase(s.cases, r);
      var k :| k in s.cases && s.cases[k].rule == r;
      assert k in t.cases && t.cases[k].rule == r;
    }
    assert t.cases.Keys == s.cases.Keys - {key};
    assert |t.cases.Keys| == |s.cases.Keys| - 1;
  }

  lemma IdleKeeps<R>(s: Ledger<R>, rules: set<R>, wanted: bool)
    requires Kept(s)
    ensures Kept(s.(modes := IdledIn(s.modes, rules, wanted)))
    ensures forall r :: r in s.modes ==> (IdledIn(s.modes, rules, wanted)[r] == InCase <==> s.modes[r] == InCase)
  {
    var modes := IdledIn(s.modes, rules, wanted);
    forall r | r in modes && modes[r] == InCase
      ensures HasCase(s.cases, r)
    {
      assert s.modes[r] == InCase;
    }
  }

  lemma EachEventKeeps<R>(s: Ledger<R>, e: Event<R>, t: Ledger<R>)
    requires Kept(s) && Next(s, e, t)
    ensures Kept(t)
  {
    match e {
      case Trapped(rule, time, begins) =>
        if TakesCase(s, rule, begins) {
          AddKeeps(s, rule, time, t);
        }
      case RuleIdled(rule, wanted) => IdleKeeps(s, {rule}, wanted);
      case RulesIdled(rules, wanted) => IdleKeeps(s, rules, wanted);
      case Answered(key, closes) =>
        if key in s.cases && closes {
          ReleaseKeeps(s, key);
        }
    }
  }

  /** A rule found failing gets a case exactly if it is in auto mode, fewer than ten are out, and one
      on it can begin. */
  lemma TrappedTakesCaseIff<R>(s: Ledger<R>, rule: R, time: int, begins: bool, t: Ledger<R>)
    requires Kept(s) && Next(s, Trapped(rule, time, begins), t)
    ensures s.modes[rule] == Auto && |s.cases| < 10 && begins <==> t.cases != s.cases
    ensures t.cases != s.cases ==>
              && t.cases.Keys == s.cases.Keys + {t.lastKey} && t.lastKey !in s.cases
              && t.cases[t.lastKey].rule == rule && t.cases[t.lastKey].whenTrapped == time
              && rule in t.modes && t.modes[rule] == InCase
    ensures |t.cases| <= 10
  {
    EachEventKeeps(s, Trapped(rule, time, begins), t);
    if TakesCase(s, rule, begins) {
      assert t.lastKey !in s.cases && t.lastKey in t.cases;
    }
  }

  /** The knob of all rules leaves none in auto mode, and turned off again none idle; the rules
      with cases out it leaves alone. */
  lemma KnobOfAll<R>(s: Ledger<R>, rules: set<R>, wanted: bool, t: Ledger<R>)
    requires Next(s, RulesIdled(rules, wanted), t) && rules == s.modes.Keys
    ensures t == s.(modes := t.modes) && t.modes.Keys == s.modes.Keys
    ensures forall r :: r in t.modes ==>
              && (t.modes[r] == InCase <==> s.modes[r] == InCase)
              && t.modes[r] != if wanted then Auto else Idle
  {
  }

  /** What is shown first has been out longest, what is shown last shortest. */
  lemma ShownByAge<R>(s: Ledger<R>, k: nat)
    requires Kept(s) && k in s.cases
    ensures s.ranking != [] && s.ranking[0] in s.cases && s.ranking[|s.ranking| - 1] in s.cases
    ensures s.cases[s.ranking[0]].whenTrapped <= s.cases[k].whenTrapped
    ensures s.cases[k].whenTrapped <= s.cases[s.ranking[|s.ranking| - 1]].whenTrapped
  {
    assert k in Range(s.ranking);
    var i :| 0 <= i < |s.ranking| && s.ranking[i] == k;
    var n := |s.ranking| - 1;
    assert s.ranking[0] in Range(s.ranking) && s.ranking[n] in Range(s.ranking);
    assert i > 0 ==> Older(s.cases, s.ranking[0], s.ranking[i]);
    assert i < n ==> Older(s.cases, s.ranking[i], s.ranking[n]);
  }

  // ----- Runs -----

  predicate IsStep<R>(events: seq<Event<R>>, n: nat) {
    n < |events|
  }

  ghost predicate IsRun<R>(states: seq<Ledger<R>>, events: seq<Event<R>>) {
    && |states| == |events| + 1
    && forall n: nat {:trigger IsStep(events, n)} :: IsStep(events, n) ==> Next(states[n], events[n], states[n + 1])
  }

  lemma StepOfRun<R>(states: seq<Ledger<R>>, events: seq<Event<R>>, n: nat)
    requires IsRun(states, events) && n < |events|
    ensures Next(states[n], events[n], states[n + 1])
  {
    assert IsStep(events, n);
  }

  /** In every interleaving of trapped rules, idle knobs and answers: a rule is in case
      mode iff exactly one case of the kit refers to it, there are never more than ten
      cases, the ranking lists each of them once from oldest to newest, and the user
      interface finds exactly those. */
  lemma {:induction false} EveryRunKeeps<R>(states: seq<Ledger<R>>, events: seq<Event<R>>, n: nat)
    requires IsRun(states, events) && n < |states| && Kept(states[0])
    ensures Kept(states[n])
  {
    if n > 0 {
      EveryRunKeeps(states, events, n - 1);
      StepOfRun(states, events, n - 1);
      EachEventKeeps(states[n - 1], events[n - 1], states[n]);
    }
  }

  function Created<R>(states: seq<Ledger<R>>): nat {
    if |states| <= 1 then 0
    else Created(states[..|states| - 1])
         + if states[|states| - 1].lastKey != states[|states| - 2].lastKey then 1 else 0
  }

  function Closed<R>(states: seq<Ledger<R>>): nat {
    if |states| <= 1 then 0
    else Closed(states[..|states| - 1])
         + if states[|states| - 1].cases.Keys < states[|states| - 2].cases.Keys then 1 else 0
  }

  lemma EventCounts<R>(s: Ledger<R>, e: Event<R>, t: Ledger<R>)
    requires Kept(s) && Next(s, e, t)
    ensures |t.cases| == |s.cases| + (if t.lastKey != s.lastKey then 1 else 0)
                         - (if t.cases.Keys < s.cases.Keys then 1 else 0)
    ensures t.lastKey >= s.lastKey
  {
    match e {
      case Trapped(rule, time, begins) =>
        if TakesCase(s, rule, begins) {
          assert t.lastKey !in s.cases;
          assert t.cases.Keys == s.cases.Keys + {t.lastKey};
          assert |t.cases.Keys| == |s.cases.Keys| + 1;
        }
      case RuleIdled(rule, wanted) =>
      case RulesIdled(rules, wanted) =>
      case Answered(key, closes) =>
        if key in s.cases && closes {
          assert t.cases.Keys == s.cases.Keys - {key};
          assert |t.cases.Keys| == |s.cases.Keys| - 1;
          assert key !in t.cases.Keys;
        }
    }
  }

  lemma ShorterRun<R>(states: seq<Ledger<R>>, events: seq<Event<R>>)
    requires IsRun(states, events) && events != []
    ensures IsRun(states[..|events|], events[..|events| - 1])
  {
    forall n: nat | IsStep(events[..|events| - 1], n)
      ensures Next(states[n], events[n], states[n + 1])
    {
      assert IsStep(events, n);
    }
  }

  /** No case is lost or counted twice: those created are those closed and those still out. */
  lemma {:induction false} CasesAreConserved<R>(states: seq<Ledger<R>>, events: seq<Event<R>>)
    requires IsRun(states, events) && Kept(states[0])
    ensures |states[0].cases| + Created(states) == |states[|events|].cases| + Closed(states)
  {
    if events != [] {
      var n := |events|;
      ShorterRun(states, events);
      CasesAreConserved(states[..n], events[..n - 1]);
      EveryRunKeeps(states, events, n - 1);
      assert IsStep(events, n - 1);
      EventCounts(states[n - 1], events[n - 1], states[n]);
    }
  }

  lemma EventMovesCase<R>(s: Ledger<R>, e: Event<R>, t: Ledger<R>, key: nat)
    requires Kept(s) && Next(s, e, t) && key <= s.lastKey
    ensures key in t.cases <==> key in s.cases && e != Answered(key, true)
    ensures key in t.cases ==> t.cases[key] == s.cases[key]
  {
  }

  ghost predicate IsOut<R>(s: Ledger<R>, key: nat, owned: Owned<R>) {
    && key in s.cases && s.cases[key] == owned
    && owned.rule in s.modes && s.modes[owned.rule] == InCase
  }

  predicate WasClosed<R>(events: seq<Event<R>>, key: nat, n: nat)
    requires n <= |events|
  {
    n > 0 && (events[n - 1] == Answered(key, true) || WasClosed(events, key, n - 1))
  }

  /** A case stays, on its rule, until an answer closes it, and a closed one never
      comes back: nothing else the kit does touches it. */
  lemma {:induction false} CaseStaysUntilClosed<R>(states: seq<Ledger<R>>, events: seq<Event<R>>, key: nat,
                                                   owned: Owned<R>, n: nat)
    requires IsRun(states, events) && n <= |events| && Kept(states[0]) && IsOut(states[0], key, owned)
    ensures key <= states[n].lastKey
    ensures if WasClosed(events, key, n) then key !in states[n].cases else IsOut(states[n], key, owned)
  {
    if n > 0 {
      CaseStaysUntilClosed(states, events, key, owned, n - 1);
      EveryRunKeeps(states, events, n - 1);
      assert IsStep(events, n - 1);
      CaseStep(states[n - 1], events[n - 1], states[n], key, owned);
    }
  }

  lemma CaseStep<R>(s: Ledger<R>, e: Event<R>, t: Ledger<R>, key: nat, owned: Owned<R>)
    requires Kept(s) && Next(s, e, t) && key <= s.lastKey
    ensures key <= t.lastKey
    ensures key !in s.cases ==> key !in t.cases
    ensures IsOut(s, key, owned) ==> if e == Answered(key, true) then key !in t.cases else IsOut(t, key, owned)
  {
    EventMovesCase(s, e, t, key);
    EventCounts(s, e, t);
    EachEventKeeps(s, e, t);
  }

  // ----- Does idling the rules keep them out of auto mode? -----

  ghost predicate NoneAuto<R>(s: Ledger<R>) {
    forall r :: r in s.modes ==> s.modes[r] != Auto
  }

  /** The event sets a rule free: it closes a case that is out, or turns an idle knob off. */
  ghost predicate Frees<R>(s: Ledger<R>, e: Event<R>) {
    match e
    case Trapped(_, _, _) => false
    case RuleIdled(rule, wanted) => !wanted && rule in s.modes && s.modes[rule] == Idle
    case RulesIdled(rules, wanted) => !wanted && exists r :: r in rules && r in s.modes && s.modes[r] == Idle
    case Answered(key, closes) => closes && key in s.cases
  }

  lemma IdlingFreesIff<R>(s: Ledger<R>, rules: set<R>, wanted: bool)
    requires NoneAuto(s)
    ensures NoneAuto(s.(modes := IdledIn(s.modes, rules, wanted)))
       <==> wanted || !exists r :: r in rules && r in s.modes && s.modes[r] == Idle
  {
    var modes := IdledIn(s.modes, rules, wanted);
    if !wanted {
      if r :| r in rules && r in s.modes && s.modes[r] == Idle {
        assert modes[r] == Auto;
      }
    }
  }

  lemma EventFreesIff<R>(s: Ledger<R>, e: Event<R>, t: Ledger<R>)
    requires Kept(s) && NoneAuto(s) && Next(s, e, t)
    ensures NoneAuto(t) <==> !Frees(s, e)
  {
    match e {
      case Trapped(rule, time, begins) =>
      case RuleIdled(rule, wanted) => IdlingFreesIff(s, {rule}, wanted);
      case RulesIdled(rules, wanted) => IdlingFreesIff(s, rules, wanted);
      case Answered(key, closes) =>
        if key in s.cases && closes {
          ReleaseKeeps(s, key);
          assert s.cases[key].rule in t.modes;
        }
    }
  }

  ghost predicate NeverAuto<R>(states: seq<Ledger<R>>, n: nat)
    requires n < |states|
  {
    forall i :: 0 <= i <= n ==> NoneAuto(states[i])
  }

  ghost predicate NeverFrees<R>(states: seq<Ledger<R>>, events: seq<Event<R>>, n: nat)
    requires n <= |events| && n < |states|
  {
    forall i :: 0 <= i < n ==> !Frees(states[i], events[i])
  }

  /** Idling is meant to set rules aside.  Over every run that starts with no rule in auto
      mode, none is ever again exactly as long as no idle knob is turned off and no case that
      is out is closed: closing one frees its rule, whatever the knob of all rules says. */
  lemma {:induction false} StaysIdledIff<R>(states: seq<Ledger<R>>, events: seq<Event<R>>, n: nat)
    requires IsRun(states, events) && n <= |events| && Kept(states[0]) && NoneAuto(states[0])
    ensures NeverAuto(states, n) <==> NeverFrees(states, events, n)
  {
    if n > 0 {
      StaysIdledIff(states, events, n - 1);
      EveryRunKeeps(states, events, n - 1);
      assert IsStep(events, n - 1);
      if NeverAuto(states, n - 1) {
        EventFreesIff(states[n - 1], events[n - 1], states[n]);
      }
    }
  }

  ghost predicate KnobOff<R>(e: Event<R>) {
    match e
    case RuleIdled(_, wanted) => !wanted
    case RulesIdled(_, wanted) => !wanted
    case _ => false
  }

  predicate Closes<R>(s: Ledger<R>, e: Event<R>) {
    e.Answered? && e.closes && e.key in s.cases
  }

  /** So, with the knobs left on, rules stay out of auto mode exactly until a case is closed. */
  lemma ClosingOutlivesIdling<R>(states: seq<Ledger<R>>, events: seq<Event<R>>)
    requires IsRun(states, events) && Kept(states[0]) && NoneAuto(states[0])
    requires forall i :: 0 <= i < |events| ==> !KnobOff(events[i])
    ensures (forall i :: 0 <= i < |states| ==> NoneAuto(states[i]))
       <==> (forall i :: 0 <= i < |events| ==> !Closes(states[i], events[i]))
  {
    StaysIdledIff(states, events, |events|);
    assert forall i :: 0 <= i < |events| ==> (Frees(states[i], events[i]) <==> Closes(states[i], events[i]));
  }
}
