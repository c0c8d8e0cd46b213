/** The objects that own cases: a case kit keeps them under their interface keys, ranks
    them by age, and destroys them when an answer closes them; a rule kit asks for one when
    a rule is trapped; the view finds the kit that owns a case. */
module CaseKits {
  import opened Nodes
  import opened Tallies
  import opened Dialogue
  import opened DialogueSafety
  import opened CaseCreation
  import opened KnowBase
  import opened Rules
  import opened Cases
  import opened KitLedger
  import opened Walks
  import KnowledgeLife

  datatype GuiReply = OkayAllDone | OkayCaseDestroyed | FailKeyNotValid | FailAnswerNotAllowed

  // ----- Sorting by age -----

  /** A key put behind all those not newer than it. */
  function InsertedByAge(ranked: seq<nat>, key: nat, when: map<nat, int>): seq<nat>
    requires key in when && forall k :: k in ranked ==> k in when
  {
    if ranked == [] then [key]
    else if when[key] < when[ranked[|ranked| - 1]] then
      InsertedByAge(ranked[..|ranked| - 1], key, when) + [ranked[|ranked| - 1]]
    else ranked + [key]
  }

  lemma {:induction false} InsertedRange(ranked: seq<nat>, key: nat, when: map<nat, int>)
    requires key in when && forall k :: k in ranked ==> k in when
    ensures Range(InsertedByAge(ranked, key, when)) == Range(ranked) + {key}
    ensures |InsertedByAge(ranked, key, when)| == |ranked| + 1
  {
    if ranked != [] {
      var front, last := ranked[..|ranked| - 1], ranked[|ranked| - 1];
      InsertedRange(front, key, when);
      assert Range(ranked) == Range(front) + {last};
      assert Range(InsertedByAge(front, key, when) + [last]) == Range(InsertedByAge(front, key, when)) + {last};
    }
  }

  ghost predicate ByAge(ranked: seq<nat>, when: map<nat, int>) {
    && Distinct(ranked) && (forall k :: k in ranked ==> k in when)
    && forall i, j :: 0 <= i < j < |ranked| ==> when[ranked[i]] <= when[ranked[j]]
  }

  lemma {:induction false} InsertedInOrder(ranked: seq<nat>, key: nat, when: map<nat, int>)
    requires ByAge(ranked, when) && key in when && key !in ranked
    ensures ByAge(InsertedByAge(ranked, key, when), when)
  {
    if ranked != [] {
      var front, last := ranked[..|ranked| - 1], ranked[|ranked| - 1];
      if when[key] < when[last] {
        InsertedInOrder(front, key, when);
        InsertedRange(front, key, when);
        var more := InsertedByAge(front, key, when);
        forall i | 0 <= i < |more|
          ensures more[i] != last && when[more[i]] <= when[last]
        {
          assert more[i] in Range(more);
          if more[i] != key {
            assert more[i] in Range(front);
          }
        }
        ByAgeThenLast(more, last, when);
      } else {
        ByAgeThenLast(ranked, key, when);
      }
    }
  }

  lemma ByAgeThenLast(ranked: seq<nat>, last: nat, when: map<nat, int>)
    requires ByAge(ranked, when) && last in when
    requires forall i :: 0 <= i < |ranked| ==> ranked[i] != last && when[ranked[i]] <= when[last]
    ensures ByAge(ranked + [last], when)
  {
  }

  /** The standard library's stable sort. */
  function SortedByAge(keys: seq<nat>, when: map<nat, int>): (r: seq<nat>)
    requires forall k :: k in keys ==> k in when
    ensures Range(r) == Range(keys)
  {
    if keys == [] then []
    else
      var rest := SortedByAge(keys[..|keys| - 1], when);
      assert forall k :: k in rest ==> k in Range(rest);
      InsertedRange(rest, keys[|keys| - 1], when);
      assert Range(keys) == Range(keys[..|keys| - 1]) + {keys[|keys| - 1]};
      InsertedByAge(rest, keys[|keys| - 1], when)
  }

  lemma {:induction false} SortedInOrder(keys: seq<nat>, when: map<nat, int>)
    requires Distinct(keys) && forall k :: k in keys ==> k in when
    ensures ByAge(SortedByAge(keys, when), when)
  {
    if keys != [] {
      var front, last := keys[..|keys| - 1], keys[|keys| - 1];
      SortedInOrder(front, when);
      assert last !in Range(front) by {
        assert forall i :: 0 <= i < |front| ==> keys[i] != last;
      }
      var rest := SortedByAge(front, when);
      assert forall k :: k in rest <==> k in Range(rest);
      InsertedInOrder(rest, last, when);
    }
  }

  lemma ByAgeIsRanking<R>(ranked: seq<nat>, when: map<nat, int>, cases: map<nat, Owned<R>>)
    requires ByAge(ranked, when) && Range(ranked) == cases.Keys
    requires when.Keys == cases.Keys && forall k :: k in cases ==> when[k] == cases[k].whenTrapped
    ensures IsRanking(ranked, cases)
  {
  }

  /** Pushed in front one after another. */
  method PushedInFront(walk: seq<nat>) returns (pushed: seq<nat>)
    requires Distinct(walk)
    ensures Distinct(pushed) && Range(pushed) == Range(walk) && |pushed| == |walk|
  {
    pushed := [];
    for i := 0 to |walk|
      invariant |pushed| == i && forall j :: 0 <= j < i ==> pushed[j] == walk[i - 1 - j]
    {
      pushed := [walk[i]] + pushed;
    }
    assert forall j :: 0 <= j < |walk| ==> walk[j] == pushed[|walk| - 1 - j];
  }

  /** All keys, walked in whatever order, and sorted if there is more than one. */
  method RankedByAge(when: map<nat, int>) returns (ranked: seq<nat>)
    ensures ByAge(ranked, when) && Range(ranked) == when.Keys
  {
    var walk := AnyOrder(when.Keys);
    var pushed := PushedInFront(walk);
    assert |pushed| == |when|;
    assert forall k :: k in pushed ==> k in Range(pushed);
    if |when| > 1 {
      SortedInOrder(pushed, when);
      ranked := SortedByAge(pushed, when);
    } else {
      ranked := pushed;
    }
  }

  // ----- Keeping the books -----

  /** The books are kept, stated so that those who only pass them on need not open them: every
      `t` that is `s` is kept, which the solver unfolds only where `Kept` is named of it. */
  ghost predicate BooksKept(s: Ledger<Rule>) {
    forall t {:trigger Kept(t)} :: t == s ==> Kept(t)
  }

  lemma BooksAdded(s: Ledger<Rule>, rule: Rule, time: int, t: Ledger<Rule>)
    requires BooksKept(s) && TakesCase(s, rule, true) && Adds(s, rule, time, t)
    ensures BooksKept(t)
  {
    assert Kept(s);
    AddKeeps(s, rule, time, t);
  }

  lemma BooksReleased(s: Ledger<Rule>, key: nat)
    requires BooksKept(s) && key in s.cases
    ensures BooksKept(Released(s, key))
    ensures key in s.lookup && s.cases[key].rule in s.modes && s.modes[s.cases[key].rule] == InCase
  {
    assert Kept(s);
    ReleaseKeeps(s, key);
  }

  lemma BooksIdled(s: Ledger<Rule>, rules: set<Rule>, wanted: bool)
    requires BooksKept(s)
    ensures BooksKept(s.(modes := IdledIn(s.modes, rules, wanted)))
  {
    assert Kept(s);
    IdleKeeps(s, rules, wanted);
  }

  /** The view finds the cases owned, and each is on a rule of its own. */
  lemma BooksSay(s: Ledger<Rule>)
    requires BooksKept(s)
    ensures s.lookup == s.cases.Keys
    ensures forall j, k :: j in s.cases && k in s.cases && j != k ==> s.cases[j].rule != s.cases[k].rule
  {
    assert Kept(s);
  }

  /** A rule not in auto mode is trapped to no effect. */
  lemma TrappedInVain(s: Ledger<Rule>, rule: Rule, time: int)
    requires rule in s.modes && s.modes[rule] != Auto
    ensures Next(s, Trapped(rule, time, true), s)
  {
  }

  lemma IdledOneMore(modes: map<Rule, Mode>, some: set<Rule>, rule: Rule, wanted: bool)
    ensures IdledIn(IdledIn(modes, some, wanted), {rule}, wanted) == IdledIn(modes, some + {rule}, wanted)
  {
  }

  // ----- Dialogues -----

  function Dialogues(states: map<nat, CaseState>): map<nat, CaseState> {
    map k | k in states && states[k].numPrior > 0 :: states[k]
  }

  /** A case more, or in another state. */
  lemma DialoguesWith(states: map<nat, CaseState>, key: nat, s: CaseState)
    requires key in states ==> (states[key].numPrior > 0 <==> s.numPrior > 0)
    ensures Dialogues(states[key := s])
         == if s.numPrior > 0 then Dialogues(states)[key := s] else Dialogues(states)
  {
  }

  lemma DialoguesWithout(states: map<nat, CaseState>, key: nat)
    ensures Dialogues(states - {key}) == Dialogues(states) - {key}
  {
  }

  // ----- The objects -----

  /** The source of interface keys. */
  class GuiKeys {
    var nextFreshKey: nat
    ghost var handedOut: set<nat>

    constructor ()
      ensures Valid() && handedOut == {} && nextFreshKey == 1
    {
      nextFreshKey := 1;
      handedOut := {};
    }

    ghost predicate Valid()
      reads this
    {
      forall k :: k in handedOut ==> k < nextFreshKey
    }

    /** A key not handed out before. */
    method GenerateNewGuiKey() returns (key: nat)
      requires Valid()
      modifies this
      ensures Valid() && key !in old(handedOut) && handedOut == old(handedOut) + {key}
      ensures old(nextFreshKey) <= key < nextFreshKey
    {
      key := nextFreshKey;
      nextFreshKey := nextFreshKey + 1;
      handedOut := handedOut + {key};
    }
  }

  class View {
    var kitOfCase: map<nat, CaseKit>

    constructor ()
      ensures kitOfCase == map[]
    {
      kitOfCase := map[];
    }

    method AddCaseToCaseKitLookup(caseKey: nat, kit: CaseKit)
      modifies this
      ensures kitOfCase == if caseKey in old(kitOfCase) then old(kitOfCase) else old(kitOfCase)[caseKey := kit]
    {
      if caseKey !in kitOfCase {
        kitOfCase := kitOfCase[caseKey := kit];
      }
    }

    method RemoveCaseFromCaseKitLookup(caseKey: nat)
      modifies this
      ensures kitOfCase == old(kitOfCase) - {caseKey}
    {
      kitOfCase := kitOfCase - {caseKey};
    }
  }

  class CaseKit {
    const view: View
    const keys: GuiKeys
    const kbase: KnowledgeBase
    ghost const rules: set<Rule>

    var cases: map<nat, Case>
    var caseKeysByDecrRank: seq<nat>
    ghost var lastKey: nat

    /** A kit for the cases of the given rules, owning none yet. */
    constructor (view: View, keys: GuiKeys, kbase: KnowledgeBase, ghost rules: set<Rule>)
      requires kbase.InOrder() && forall r :: r in rules ==> r.Valid() && r.SayMode() != InCase
      requires keys.Valid() && keys.nextFreshKey > 0 && forall k :: k in view.kitOfCase ==> k < keys.nextFreshKey
      ensures Valid() && cases == map[] && fresh(this)
      ensures this.view == view && this.keys == keys && this.kbase == kbase && this.rules == rules
    {
      this.view, this.keys, this.kbase, this.rules := view, keys, kbase, rules;
      cases, caseKeysByDecrRank := map[], [];
      lastKey := 0;
    }

    ghost function CasesOut(): map<nat, Owned<Rule>>
      reads `cases
    {
      map k | k in cases :: Owned(cases[k].rule, cases[k].timeTrapped)
    }

    ghost function Modes(): map<Rule, Mode>
      reads rules`caseModeOffset, rules`idleModeOffset
    {
      map r | r in rules :: r.SayMode()
    }

    ghost function KeysFound(): set<nat>
      reads view`kitOfCase
    {
      set k | k in view.kitOfCase && view.kitOfCase[k] == this
    }

    ghost function Books(): Ledger<Rule>
      reads `cases, `caseKeysByDecrRank, `lastKey, view`kitOfCase, rules`caseModeOffset, rules`idleModeOffset
    {
      Ledger(Modes(), CasesOut(), caseKeysByDecrRank, KeysFound(), lastKey)
    }

    ghost function StatesNow(): (states: map<nat, CaseState>)
      reads `cases, cases.Values
      ensures states.Keys == cases.Keys && forall k :: k in cases ==> states[k] == cases[k].State()
    {
      map k | k in cases :: cases[k].State()
    }

    /** The kit's part in the life of the knowledge base: its cases with something to diagnose. */
    ghost function WorldNow(): KnowledgeLife.World
      reads `cases, cases.Values, kbase
    {
      KnowledgeLife.World(kbase.file.nodes, Dialogues(StatesNow()), kbase.Lookups())
    }

    ghost predicate CasesSound()
      reads `cases, cases.Values, kbase
    {
      forall k :: k in cases ==> cases[k].kbase == kbase && (cases[k].HasHypos() ==> cases[k].IsSound())
    }

    /** Everything the books rest on is in order. */
    ghost predicate Grounded()
      reads this, view, keys, kbase, cases.Values
      reads rules`caseModeOffset, rules`idleModeOffset, rules`isRuleAtIdle
    {
      && kbase.InOrder() && (forall r :: r in rules ==> r.Valid())
      && CasesSound()
      && keys.Valid() && lastKey < keys.nextFreshKey && (forall k :: k in view.kitOfCase ==> k < keys.nextFreshKey)
    }

    ghost predicate Valid()
      reads this, view, keys, kbase, cases.Values
      reads rules`caseModeOffset, rules`idleModeOffset, rules`isRuleAtIdle
    {
      Grounded() && InOrder()
    }

    ghost predicate InOrder()
      reads `cases, `caseKeysByDecrRank, `lastKey, view`kitOfCase, rules`caseModeOffset, rules`idleModeOffset
    {
      BooksKept(Books())
    }

    /** Nothing but the rules' modes, of the rules, has a part in it. */
    twostate lemma StaysGrounded()
      requires old(Grounded()) && unchanged(this) && unchanged(view) && unchanged(keys) && unchanged(kbase)
      requires forall k :: k in cases ==> unchanged(cases[k])
      requires forall r :: r in rules ==>
                 unchanged(r`caseModeOffset) && unchanged(r`idleModeOffset) && unchanged(r`isRuleAtIdle)
      ensures Grounded() && Books() == old(Books())
    {
      assert Modes() == old(Modes());
    }

    lemma NumCases()
      ensures CasesOut().Keys == cases.Keys && |CasesOut()| == |cases|
    {
      assert CasesOut().Keys == cases.Keys;
      assert |CasesOut().Keys| == |cases.Keys|;
    }

    /** No case is owned under two keys. */
    lemma OneCaseEach(key: nat)
      requires InOrder() && key in cases
      ensures forall k :: k in cases && k != key ==> cases[k] != cases[key]
    {
      BooksSay(Books());
      var out := CasesOut();
      forall k | k in cases && k != key
        ensures cases[k] != cases[key]
      {
        assert out[k].rule != out[key].rule;
      }
    }

    lemma ModeInBooks(rule: Rule)
      requires Grounded() && rule in rules
      ensures rule.Valid() && rule in Books().modes && Books().modes[rule] == rule.SayMode()
      ensures rule.IsInAutoMode() <==> rule.SayMode() == Auto
    {
    }

    // ----- Ranking -----

    method RegenCaseRankings()
      modifies this`caseKeysByDecrRank
      ensures IsRanking(caseKeysByDecrRank, CasesOut())
    {
      var when := map k | k in cases :: cases[k].timeTrapped;
      assert when.Keys == cases.Keys;
      caseKeysByDecrRank := RankedByAge(when);
      ByAgeIsRanking(caseKeysByDecrRank, when, CasesOut());
    }

    // ----- Creating cases -----

    /** A case on a trapped rule, unless ten are already out. */
    method CreateAndOwnCase(rule: Rule, trapTime: int) returns (fault: Fault, ghost e: KnowledgeLife.Event)
      requires Valid() && rule in rules && rule.SayMode() == Auto
      modifies this, view, keys, kbase, rule`caseModeOffset
      ensures Valid() && kbase.file == old(kbase.file) && kbase.LayoutNow() == old(kbase.LayoutNow())
      ensures fault == IdNotNamed <==>
                |old(cases)| < MAX_CASES && !RuleKnown(kbase.Lookups(), kbase.file.nodes, rule.ruleUai)
      ensures OpensIf(|old(cases)| < MAX_CASES && DiagnosesOn(rule, fault), old(WorldNow()), e, rule.ruleUai,
                      WorldNow())
      ensures Next(old(Books()), Trapped(rule, trapTime, fault == NoFault), Books())
      ensures forall k :: k in old(cases) ==> k in cases && cases[k] == old(cases)[k]
      ensures forall k :: k in cases && k !in old(cases) ==> fresh(cases[k]) && cases[k].waitingOnUserToAnswer
      ensures OthersFoundAsBefore(old(view.kitOfCase), view.kitOfCase)
    {
      NumCases();
      fault := NoFault;
      e := KnowledgeLife.Answers(0, 0);
      if |cases| < MAX_CASES {
        ReadyFor(rule);
        ghost var books, owned, found := Books(), cases, view.kitOfCase;
        var c;
        c, fault, e := Admit(rule, trapTime);
        AdmittedMeans(rule, trapTime, c, fault, books, owned, found);
      }
    }

    lemma AdmittedMeans(rule: Rule, trapTime: int, c: Case?, fault: Fault, books: Ledger<Rule>, owned: map<nat, Case>,
                        found: map<nat, CaseKit>)
      requires Admits(rule, trapTime, c, fault, books, owned, found)
      requires TakesCase(books, rule, true)
      ensures Next(books, Trapped(rule, trapTime, fault == NoFault), Books())
      ensures forall k :: k in owned ==> k in cases && cases[k] == owned[k]
      ensures forall k :: k in cases && k !in owned ==> fault == NoFault && cases[k] == c && c.waitingOnUserToAnswer
      ensures OthersFoundAsBefore(found, view.kitOfCase)
    {
    }

    /** There are hypotheses on file for the rule, and all that is on file can be looked up. */
    ghost predicate DiagnosesOn(rule: Rule, fault: Fault)
      reads kbase
    {
      fault != IdNotNamed && HyposOfRule(kbase.file.nodes, rule.ruleUai) != {}
    }

    /** A case taken in is a case opened in the life of the knowledge base, if there is something
        to diagnose; one that cannot begin changes nothing. */
    static lemma OpeningIsNext(w: KnowledgeLife.World, states: map<nat, CaseState>, rule: nat, isOnFile: bool,
                               fault: Fault, e: KnowledgeLife.Event, begun: Creation, key: nat, s: CaseState,
                               after: map<nat, CaseState>)
      requires w.cases == Dialogues(states) && key !in states
      requires after == if fault == NoFault then states[key := s] else states
      requires if fault == NoFault then s.numPrior > 0 <==> isOnFile else isOnFile
      requires fault != IdNotNamed && isOnFile ==>
                 && KnowledgeLife.OpensTo(w.nodes, w.known, rule, e, begun)
                 && fault == FaultOf(begun) && (fault == NoFault ==> begun == Created(s))
      ensures if fault != IdNotNamed && isOnFile
              then KnowledgeLife.LeadsTo(w, KnowledgeLife.Under(e, key), w.(cases := Dialogues(after)))
              else Dialogues(after) == w.cases
    {
      DialoguesWith(states, key, s);
      if fault != IdNotNamed && isOnFile {
        KnowledgeLife.LeadsToMeans(w, KnowledgeLife.Under(e, key), w.(cases := Dialogues(after)));
      }
    }

    /** The kit can take a case on a rule in auto mode. */
    lemma ReadyFor(rule: Rule)
      requires Valid() && rule in rules && rule.SayMode() == Auto && |CasesOut()| < MAX_CASES
      ensures KeysFound() == cases.Keys && TakesCase(Books(), rule, true) && keys.nextFreshKey !in cases
    {
      BooksSay(Books());
      assert keys.nextFreshKey !in KeysFound();
    }

    method Admit(rule: Rule, trapTime: int) returns (c: Case?, fault: Fault, ghost e: KnowledgeLife.Event)
      requires Valid() && rule in rules && rule.SayMode() == Auto && |CasesOut()| < MAX_CASES
      modifies this, view, keys, kbase, rule`caseModeOffset
      ensures Valid() && kbase.file == old(kbase.file) && kbase.LayoutNow() == old(kbase.LayoutNow())
      ensures fault == IdNotNamed <==> !RuleKnown(kbase.Lookups(), kbase.file.nodes, rule.ruleUai)
      ensures OpensIf(DiagnosesOn(rule, fault), old(WorldNow()), e, rule.ruleUai, WorldNow())
      ensures Admits(rule, trapTime, c, fault, old(Books()), old(cases), old(view.kitOfCase))
      ensures fault == NoFault ==> fresh(c)
    {
      ghost var w, states := WorldNow(), StatesNow();
      ghost var begun, key, s;
      c, fault, e, begun, key, s := OpenAndEnter(rule, trapTime);
      OpeningIsNext(w, states, rule.ruleUai, HyposOfRule(kbase.file.nodes, rule.ruleUai) != {}, fault, e, begun, key, s,
                    StatesNow());
      if DiagnosesOn(rule, fault) {
        e := KnowledgeLife.Under(e, key);
      }
    }

    /** What is due happens in the life of the knowledge base, and nothing else. */
    static ghost predicate OpensIf(isDue: bool, w: KnowledgeLife.World, e: KnowledgeLife.Event, rule: nat,
                                   after: KnowledgeLife.World) {
      if isDue then e.Opens? && e.rule == rule && KnowledgeLife.LeadsTo(w, e, after) else after == w
    }

    /** The books and the view take the case, unless it cannot begin. */
    ghost predicate Admits(rule: Rule, trapTime: int, c: Case?, fault: Fault, books: Ledger<Rule>,
                           owned: map<nat, Case>, found: map<nat, CaseKit>)
      reads `cases, `caseKeysByDecrRank, `lastKey, view`kitOfCase, rules`caseModeOffset, rules`idleModeOffset, c
    {
      if fault != NoFault then
        Books() == books && cases == owned && view.kitOfCase == found
      else
        && Adds(books, rule, trapTime, Books())
        && c != null && c.waitingOnUserToAnswer
        && lastKey !in owned && cases == owned[lastKey := c]
        && lastKey !in found && view.kitOfCase == found[lastKey := this]
    }

    method OpenAndEnter(rule: Rule, trapTime: int)
      returns (c: Case?, fault: Fault, ghost e: KnowledgeLife.Event, ghost begun: Creation, ghost key: nat,
               ghost s: CaseState)
      requires Valid() && rule in rules && rule.SayMode() == Auto && |CasesOut()| < MAX_CASES
      modifies this, view, keys, kbase, rule`caseModeOffset
      ensures Valid() && kbase.file == old(kbase.file) && kbase.LayoutNow() == old(kbase.LayoutNow())
      ensures fault == IdNotNamed <==> !RuleKnown(kbase.Lookups(), kbase.file.nodes, rule.ruleUai)
      ensures Admits(rule, trapTime, c, fault, old(Books()), old(cases), old(view.kitOfCase))
      ensures key !in old(cases)
      ensures StatesNow() == if fault == NoFault then old(StatesNow())[key := s] else old(StatesNow())
      ensures fault == NoFault ==> fresh(c) && (s.numPrior > 0 <==> HyposOfRule(kbase.file.nodes, rule.ruleUai) != {})
      ensures fault != NoFault ==> HyposOfRule(kbase.file.nodes, rule.ruleUai) != {}
      ensures DiagnosesOn(rule, fault) ==>
                && KnowledgeLife.OpensTo(kbase.file.nodes, kbase.Lookups(), rule.ruleUai, e, begun)
                && fault == FaultOf(begun) && (fault == NoFault ==> begun == Created(s))
    {
      ghost var before := Books();
      ReadyFor(rule);
      key, s := keys.nextFreshKey, Opened(0, false, [], [], 0);
      c, fault, e, begun := OpenCase(rule, trapTime);
      if fault == NoFault {
        EnterAndKeep(c, before);
        key, s := lastKey, c.State();
      }
    }

    /** The view's entries of other kits. */
    ghost predicate OthersFoundAsBefore(before: map<nat, CaseKit>, after: map<nat, CaseKit>) {
      forall k :: (k in before && before[k] != this ==> k in after && after[k] == before[k])
                  && (k in after && after[k] != this ==> k in before && before[k] == after[k])
    }

    method OpenCase(rule: Rule, trapTime: int)
      returns (c: Case?, fault: Fault, ghost e: KnowledgeLife.Event, ghost begun: Creation)
      requires Grounded() && rule in rules && rule.SayMode() == Auto
      modifies kbase, rule`caseModeOffset
      ensures Grounded() && kbase.file == old(kbase.file) && kbase.LayoutNow() == old(kbase.LayoutNow())
      ensures StatesNow() == old(StatesNow()) && cases == old(cases) && view.kitOfCase == old(view.kitOfCase)
      ensures fault == IdNotNamed <==> !RuleKnown(kbase.Lookups(), kbase.file.nodes, rule.ruleUai)
      ensures DiagnosesOn(rule, fault) ==>
                && KnowledgeLife.OpensTo(kbase.file.nodes, kbase.Lookups(), rule.ruleUai, e, begun)
                && fault == FaultOf(begun) && (fault == NoFault ==> c != null && begun == Created(c.State()))
      ensures fault != NoFault ==> Books() == old(Books()) && HyposOfRule(kbase.file.nodes, rule.ruleUai) != {}
      ensures fault == NoFault ==>
                && c != null && fresh(c) && c.kbase == kbase && c.rule == rule && c.timeTrapped == trapTime
                && (c.HasHypos() <==> HyposOfRule(kbase.file.nodes, rule.ruleUai) != {})
                && (c.HasHypos() ==> c.IsSound()) && c.waitingOnUserToAnswer
                && Books() == old(Books()).(modes := old(Modes())[rule := CaseModeSet(true)])
    {
      c, fault, e, begun := Case.CreateSound(kbase, rule, trapTime);
      CasesStaySound();
    }

    /** Tables more are no harm to the cases out. */
    twostate lemma CasesStaySound()
      requires old(CasesSound()) && cases == old(cases) && kbase.InOrder()
      requires forall k :: k in cases ==> unchanged(cases[k])
      requires old(kbase.file.nodes).Keys <= kbase.file.nodes.Keys
      ensures CasesSound()
    {
      forall k | k in cases && cases[k].HasHypos()
        ensures cases[k].IsSound()
      {
        cases[k].StaysSound();
      }
    }

    /** The books brought up to date with a case that has taken its rule. */
    method Enter(c: Case, ghost before: Ledger<Rule>)
      requires Grounded() && KeysFound() == cases.Keys && c.kbase == kbase && (c.HasHypos() ==> c.IsSound())
      requires c.rule in before.modes
      requires Books() == before.(modes := before.modes[c.rule := CaseModeSet(true)])
      modifies this, view, keys
      ensures Grounded() && Adds(before, c.rule, c.timeTrapped, Books())
      ensures lastKey !in old(cases) && cases == old(cases)[lastKey := c]
      ensures lastKey !in old(view.kitOfCase) && view.kitOfCase == old(view.kitOfCase)[lastKey := this]
    {
      Own(c);
      assert CasesOut() == before.cases[lastKey := Owned(c.rule, c.timeTrapped)];
      assert KeysFound() == before.lookup + {lastKey};
      assert Modes() == before.modes[c.rule := CaseModeSet(true)];
    }

    twostate lemma StatesTake(c: Case)
      requires cases == old(cases)[lastKey := c] && unchanged(c)
      requires forall k :: k in old(cases) ==> unchanged(old(cases)[k])
      ensures StatesNow() == old(StatesNow())[lastKey := c.State()]
    {
      var states := old(StatesNow())[lastKey := c.State()];
      assert StatesNow().Keys == states.Keys;
      forall k | k in states
        ensures StatesNow()[k] == states[k]
      {
        if k != lastKey {
          assert old(cases)[k].State() == old(cases[k].State());
        }
      }
      assert forall k :: k in old(cases) ==> old(cases)[k].State() == old(cases[k].State());
    }

    twostate lemma StatesLose(key: nat)
      requires cases == old(cases) - {key}
      requires forall k :: k in old(cases) ==> unchanged(old(cases)[k])
      ensures StatesNow() == old(StatesNow()) - {key}
    {
      assert forall k :: k in old(cases) ==> old(cases)[k].State() == old(cases[k].State());
    }

    method EnterAndKeep(c: Case, ghost before: Ledger<Rule>)
      requires Grounded() && KeysFound() == cases.Keys && c.kbase == kbase && (c.HasHypos() ==> c.IsSound())
      requires Books() == before.(modes := before.modes[c.rule := CaseModeSet(true)])
      requires BooksKept(before) && TakesCase(before, c.rule, true) && c.waitingOnUserToAnswer
      modifies this, view, keys
      ensures Valid() && lastKey !in old(cases)
      ensures Admits(c.rule, c.timeTrapped, c, NoFault, before, old(cases), old(view.kitOfCase))
      ensures StatesNow() == old(StatesNow())[lastKey := c.State()]
    {
      Enter(c, before);
      StatesTake(c);
      BooksAdded(before, c.rule, c.timeTrapped, Books());
    }

    /** The new case owned under a fresh key, ranked, and found by the view. */
    method Own(c: Case)
      requires KeysFound() == cases.Keys && keys.Valid() && lastKey < keys.nextFreshKey
      requires forall k :: k in view.kitOfCase ==> k < keys.nextFreshKey
      modifies this, view, keys
      ensures old(lastKey) < lastKey && lastKey !in old(cases) && lastKey !in old(view.kitOfCase)
      ensures cases == old(cases)[lastKey := c] && IsRanking(caseKeysByDecrRank, CasesOut())
      ensures view.kitOfCase == old(view.kitOfCase)[lastKey := this]
      ensures keys.Valid() && lastKey < keys.nextFreshKey && forall k :: k in view.kitOfCase ==> k < keys.nextFreshKey
    {
      var key := keys.GenerateNewGuiKey();
      assert key !in KeysFound();
      cases := cases[key := c];
      RegenCaseRankings();
      view.AddCaseToCaseKitLookup(key, this);
      lastKey := key;
    }

    // ----- Answering and destroying cases -----

    /** Destroying a case frees its rule and strikes it from the books. */
    method DestroyCase(keyOfCaseToDestroy: nat) returns (reply: GuiReply)
      requires Valid()
      modifies this`cases, this`caseKeysByDecrRank, view, rules`caseModeOffset
      ensures Valid()
      ensures keyOfCaseToDestroy !in old(cases) ==> reply == FailKeyNotValid && Books() == old(Books())
      ensures keyOfCaseToDestroy in old(cases) ==>
                && reply == OkayCaseDestroyed && cases == old(cases) - {keyOfCaseToDestroy}
                && Books() == Released(old(Books()), keyOfCaseToDestroy)
      ensures OthersFoundAsBefore(old(view.kitOfCase), view.kitOfCase)
    {
      if keyOfCaseToDestroy !in cases {
        return FailKeyNotValid;
      }
      Close(keyOfCaseToDestroy);
      reply := OkayCaseDestroyed;
    }

    method Close(key: nat)
      requires Valid() && key in cases
      modifies this`cases, this`caseKeysByDecrRank, view, rules`caseModeOffset
      ensures Valid() && cases == old(cases) - {key} && view.kitOfCase == old(view.kitOfCase) - {key}
      ensures Books() == Released(old(Books()), key)
      ensures OthersFoundAsBefore(old(view.kitOfCase), view.kitOfCase)
    {
      ghost var before := Books();
      BooksReleased(before, key);
      FreeRuleOf(key);
      Strike(key);
    }

    method FreeRuleOf(key: nat)
      requires Grounded() && key in cases && cases[key].rule in rules && cases[key].rule.SayMode() == InCase
      modifies cases[key].rule`caseModeOffset
      ensures Grounded() && Modes() == old(Modes())[cases[key].rule := CaseModeSet(false)]
    {
      cases[key].Release();
    }

    method Strike(key: nat)
      requires Grounded() && key in cases
      modifies this`cases, this`caseKeysByDecrRank, view
      ensures Grounded() && cases == old(cases) - {key} && view.kitOfCase == old(view.kitOfCase) - {key}
      ensures Books() == old(Books()).(cases := old(CasesOut()) - {key}, lookup := old(KeysFound()) - {key},
                                       ranking := Without(old(caseKeysByDecrRank), key))
    {
      view.RemoveCaseFromCaseKitLookup(key);
      cases := cases - {key};
      caseKeysByDecrRank := Without(caseKeysByDecrRank, key);
      assert CasesOut() == old(CasesOut()) - {key};
      assert KeysFound() == old(KeysFound()) - {key};
    }

    /** The user's answer passed to its case, which may ask to be destroyed. */
    method AnswerCasePromptUsingOptionIndex(caseKey: nat, iOption: nat) returns (reply: GuiReply, ghost o: Outcome)
      requires Valid() && (caseKey in cases ==> cases[caseKey].HasHypos())
      modifies this`cases, this`caseKeysByDecrRank, view, rules`caseModeOffset, kbase, cases.Values
      ensures Valid()
      ensures Next(old(Books()), Answered(caseKey, AsksToDestroy(o.reply)), Books())
      ensures kbase.LayoutNow() == old(kbase.LayoutNow()) && (old(kbase.Agrees()) ==> kbase.Agrees())
      ensures KnowledgeLife.LeadsTo(old(WorldNow()), KnowledgeLife.Answers(caseKey, iOption), WorldNow())
      ensures caseKey !in old(cases) ==> reply == OkayAllDone && cases == old(cases) && kbase.file == old(kbase.file)
      ensures caseKey in old(cases) ==>
                && StepsTo(old(cases[caseKey].State()), old(kbase.file.nodes), iOption, o)
                && kbase.file.nodes == o.nodes && old(cases)[caseKey].State() == o.state
                && cases == (if AsksToDestroy(o.reply) then old(cases) - {caseKey} else old(cases))
                && reply == ReplyFor(o.reply)
      ensures StatesNow() == StatesAfter(old(StatesNow()), caseKey, o)
      ensures OthersFoundAsBefore(old(view.kitOfCase), view.kitOfCase)
    {
      if caseKey in cases {
        reply, o := AnswerOwn(caseKey, iOption);
      } else {
        o := Outcome(Opened(0, false, [], [], 0), kbase.file.nodes, None);
        KnowledgeLife.LeadsToMeans(WorldNow(), KnowledgeLife.Answers(caseKey, iOption), WorldNow());
        reply := OkayAllDone;
      }
    }

    method AnswerOwn(caseKey: nat, iOption: nat) returns (reply: GuiReply, ghost o: Outcome)
      requires Valid() && caseKey in cases && cases[caseKey].HasHypos()
      modifies this`cases, this`caseKeysByDecrRank, view, rules`caseModeOffset, kbase, cases.Values
      ensures Valid()
      ensures Books() == if AsksToDestroy(o.reply) then Released(old(Books()), caseKey) else old(Books())
      ensures kbase.LayoutNow() == old(kbase.LayoutNow()) && (old(kbase.Agrees()) ==> kbase.Agrees())
      ensures KnowledgeLife.LeadsTo(old(WorldNow()), KnowledgeLife.Answers(caseKey, iOption), WorldNow())
      ensures StepsTo(old(cases[caseKey].State()), old(kbase.file.nodes), iOption, o)
      ensures kbase.file.nodes == o.nodes && old(cases)[caseKey].State() == o.state
      ensures cases == if AsksToDestroy(o.reply) then old(cases) - {caseKey} else old(cases)
      ensures reply == ReplyFor(o.reply)
      ensures StatesNow() == StatesAfter(old(StatesNow()), caseKey, o)
      ensures OthersFoundAsBefore(old(view.kitOfCase), view.kitOfCase)
    {
      ghost var w, states := WorldNow(), StatesNow();
      var caseReply: Reply;
      caseReply, o := PassOn(caseKey, iOption);
      ghost var passed := StatesNow();
      reply := ActOn(caseKey, caseReply);
      AnswerIsNext(w, states, caseKey, iOption, o, passed, StatesNow());
    }

    static function ReplyFor(caseReply: Reply): GuiReply {
      if AsksToDestroy(caseReply) then OkayCaseDestroyed
      else if caseReply == KitAnswerNotAllowedTellGui then FailAnswerNotAllowed
      else OkayAllDone
    }

    static function StatesAfter(states: map<nat, CaseState>, caseKey: nat, o: Outcome): map<nat, CaseState> {
      if caseKey !in states then states
      else if AsksToDestroy(o.reply) then states - {caseKey}
      else states[caseKey := o.state]
    }

    /** A case answered, and closed if it asks to be, is a case answered in the life of the
        knowledge base. */
    static lemma AnswerIsNext(w: KnowledgeLife.World, states: map<nat, CaseState>, caseKey: nat, iOption: nat,
                              o: Outcome, passed: map<nat, CaseState>, after: map<nat, CaseState>)
      requires w.cases == Dialogues(states) && caseKey in w.cases && StepsTo(w.cases[caseKey], w.nodes, iOption, o)
      requires o.state.numPrior == w.cases[caseKey].numPrior
      requires passed == states[caseKey := o.state]
      requires after == if AsksToDestroy(o.reply) then passed - {caseKey} else passed
      ensures after == StatesAfter(states, caseKey, o)
      ensures KnowledgeLife.LeadsTo(w, KnowledgeLife.Answers(caseKey, iOption),
                                    KnowledgeLife.World(o.nodes, Dialogues(after), w.known))
    {
      if Sound(w.cases[caseKey]) && NonNegative(w.nodes) {
        assert o == Step(w.cases[caseKey], w.nodes, iOption);
      }
      assert passed - {caseKey} == states - {caseKey};
      DialoguesWithout(states, caseKey);
      DialoguesWith(states, caseKey, o.state);
      KnowledgeLife.LeadsToMeans(w, KnowledgeLife.Answers(caseKey, iOption),
                                 KnowledgeLife.World(o.nodes, Dialogues(after), w.known));
    }

    /** What the kit does about a case's reply. */
    method ActOn(caseKey: nat, caseReply: Reply) returns (reply: GuiReply)
      requires Valid() && caseKey in cases
      modifies this`cases, this`caseKeysByDecrRank, view, rules`caseModeOffset
      ensures Valid()
      ensures Books() == if AsksToDestroy(caseReply) then Released(old(Books()), caseKey) else old(Books())
      ensures cases == if AsksToDestroy(caseReply) then old(cases) - {caseKey} else old(cases)
      ensures StatesNow() == if AsksToDestroy(caseReply) then old(StatesNow()) - {caseKey} else old(StatesNow())
      ensures old(cases)[caseKey].State() == old(cases[caseKey].State())
      ensures kbase.file == old(kbase.file) && kbase.LayoutNow() == old(kbase.LayoutNow())
      ensures old(kbase.Agrees()) ==> kbase.Agrees()
      ensures reply == ReplyFor(caseReply)
      ensures OthersFoundAsBefore(old(view.kitOfCase), view.kitOfCase)
    {
      match caseReply {
        case KitCaseDroppedDestroyAndTellGui => reply := DestroyCase(caseKey);
        case KitFaultFixedDestroyAndTellGui => reply := DestroyCase(caseKey);
        case KitAnswerNotAllowedTellGui => reply := FailAnswerNotAllowed;
        case _ => reply := OkayAllDone;
      }
      if AsksToDestroy(caseReply) {
        StatesLose(caseKey);
      }
    }

    method PassOn(caseKey: nat, iOption: nat) returns (caseReply: Reply, ghost o: Outcome)
      requires Valid() && caseKey in cases && cases[caseKey].HasHypos()
      modifies kbase, cases[caseKey]
      ensures Valid() && Books() == old(Books())
      ensures kbase.LayoutNow() == old(kbase.LayoutNow()) && (old(kbase.Agrees()) ==> kbase.Agrees())
      ensures StepsTo(old(cases[caseKey].State()), old(kbase.file.nodes), iOption, o)
      ensures o == Outcome(cases[caseKey].State(), kbase.file.nodes, caseReply)
      ensures StatesNow() == old(StatesNow())[caseKey := o.state]
      ensures cases == old(cases) && view.kitOfCase == old(view.kitOfCase)
    {
      OneCaseEach(caseKey);
      caseReply, o := LetTake(caseKey, iOption);
      OthersStay(caseKey);
    }

    method LetTake(caseKey: nat, iOption: nat) returns (caseReply: Reply, ghost o: Outcome)
      requires Valid() && caseKey in cases && cases[caseKey].HasHypos()
      requires forall k :: k in cases && k != caseKey ==> cases[k] != cases[caseKey]
      modifies kbase, cases[caseKey]
      ensures Valid() && Books() == old(Books())
      ensures kbase.LayoutNow() == old(kbase.LayoutNow()) && (old(kbase.Agrees()) ==> kbase.Agrees())
      ensures StepsTo(old(cases[caseKey].State()), old(kbase.file.nodes), iOption, o)
      ensures o == Outcome(cases[caseKey].State(), kbase.file.nodes, caseReply)
    {
      caseReply, o := cases[caseKey].TakeAnswer(iOption);
      OthersStaySound(caseKey);
    }

    twostate lemma OthersStay(caseKey: nat)
      requires cases == old(cases) && caseKey in cases
      requires forall k :: k in cases && k != caseKey ==> unchanged(cases[k])
      ensures StatesNow() == old(StatesNow())[caseKey := cases[caseKey].State()]
    {
      assert forall k :: k in cases && k != caseKey ==> cases[k].State() == old(cases[k].State());
    }

    /** What one case does to the tables is no harm to the others. */
    twostate lemma OthersStaySound(caseKey: nat)
      requires old(CasesSound()) && cases == old(cases) && caseKey in cases && kbase.InOrder()
      requires cases[caseKey].IsSound()
      requires forall k :: k in cases && k != caseKey ==> unchanged(cases[k])
      requires old(kbase.file.nodes).Keys <= kbase.file.nodes.Keys
      ensures CasesSound()
    {
      forall k | k in cases && cases[k].HasHypos()
        ensures cases[k].IsSound()
      {
        if k != caseKey {
          cases[k].StaysSound();
        }
      }
    }
  }
}
