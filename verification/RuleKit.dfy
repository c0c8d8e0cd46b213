/** A kit of rules cycled together: its rainfall logs their results and traps the rule that
    fails most, and a case kit is asked for a case on it. */
module RuleKits {
  import opened Nodes
  import opened Rules
  import opened Cases
  import opened KitLedger
  import opened CaseKits
  import opened Trap
  import opened RainRuleKits
  import opened Walks

  /** The first `n` rules of a walk. */
  ghost function RulesWalked(rules: map<nat, Rule>, walk: seq<nat>): set<Rule> {
    set j | 0 <= j < |walk| && walk[j] in rules :: rules[walk[j]]
  }

  lemma WalkedOneMore(rules: map<nat, Rule>, walk: seq<nat>, i: nat)
    requires i < |walk| && walk[i] in rules
    ensures RulesWalked(rules, walk[..i + 1]) == RulesWalked(rules, walk[..i]) + {rules[walk[i]]}
  {
    var more, some := walk[..i + 1], walk[..i];
    forall r | r in RulesWalked(rules, more)
      ensures r in RulesWalked(rules, some) + {rules[walk[i]]}
    {
      var j :| 0 <= j < |more| && more[j] in rules && rules[more[j]] == r;
      assert j < i ==> some[j] == more[j];
    }
    forall r | r in RulesWalked(rules, some)
      ensures r in RulesWalked(rules, more)
    {
      var j :| 0 <= j < |some| && some[j] in rules && rules[some[j]] == r;
      assert more[j] == some[j];
    }
    assert more[i] == walk[i];
  }

  lemma ValuesWalked(rules: map<nat, Rule>, walk: seq<nat>)
    requires Range(walk) == rules.Keys
    ensures RulesWalked(rules, walk) == rules.Values
  {
    forall r | r in rules.Values
      ensures r in RulesWalked(rules, walk)
    {
      var uai :| uai in rules && rules[uai] == r;
      assert uai in Range(walk);
      var j :| 0 <= j < |walk| && walk[j] == uai;
      assert rules[walk[j]] == r;
    }
  }

  /** The modes after each of the rules of a walk has had its knob set. */
  ghost predicate AreIdlings(modes: map<Rule, Mode>, rules: map<nat, Rule>, walk: seq<nat>, wanted: bool,
                             idlings: seq<map<Rule, Mode>>) {
    && |idlings| == |walk| + 1
    && forall i {:trigger walk[..i]} ::
         0 <= i < |idlings| ==> idlings[i] == IdledIn(modes, RulesWalked(rules, walk[..i]), wanted)
  }

  ghost function IdlingsOf(modes: map<Rule, Mode>, rules: map<nat, Rule>, walk: seq<nat>, wanted: bool):
    (idlings: seq<map<Rule, Mode>>)
    ensures AreIdlings(modes, rules, walk, wanted, idlings)
  {
    seq(|walk| + 1, i requires 0 <= i <= |walk| => IdledIn(modes, RulesWalked(rules, walk[..i]), wanted))
  }

  lemma IdlingsStartAndEnd(modes: map<Rule, Mode>, rules: map<nat, Rule>, walk: seq<nat>, wanted: bool,
                           idlings: seq<map<Rule, Mode>>)
    requires AreIdlings(modes, rules, walk, wanted, idlings) && Range(walk) == rules.Keys
    ensures idlings[0] == modes && idlings[|walk|] == IdledIn(modes, rules.Values, wanted)
  {
    ValuesWalked(rules, walk);
    assert walk[..0] == [] && walk[..|walk|] == walk;
    assert RulesWalked(rules, walk[..0]) == {};
    assert IdledIn(modes, {}, wanted) == modes;
  }

  lemma NextIdling(modes: map<Rule, Mode>, rules: map<nat, Rule>, walk: seq<nat>, wanted: bool,
                   idlings: seq<map<Rule, Mode>>, i: nat)
    requires AreIdlings(modes, rules, walk, wanted, idlings) && i < |walk| && walk[i] in rules
    ensures idlings[i + 1] == IdledIn(idlings[i], {rules[walk[i]]}, wanted)
  {
    WalkedOneMore(rules, walk, i);
    IdledOneMore(modes, RulesWalked(rules, walk[..i]), rules[walk[i]], wanted);
  }

  class RuleKit {
    const caseKit: CaseKit
    const rain: RainRuleKit
    const rules: map<nat, Rule>
    var areAllRulesNotInCaseModePutToIdle: bool
    var alerts: seq<nat>

    constructor (caseKit: CaseKit, rain: RainRuleKit, rules: map<nat, Rule>)
      requires caseKit.Valid() && rain.Valid() && rain.SetsMatch() && RulesFit(caseKit, rain, rules)
      ensures Valid() && alerts == []
      ensures this.caseKit == caseKit && this.rain == rain && this.rules == rules
    {
      this.caseKit, this.rain, this.rules := caseKit, rain, rules;
      areAllRulesNotInCaseModePutToIdle, alerts := false, [];
    }

    static ghost predicate RulesFit(caseKit: CaseKit, rain: RainRuleKit, rules: map<nat, Rule>) {
      && rain.rules == rules
      && forall uai :: uai in rules ==> uai > 0 && rules[uai].ruleUai == uai && rules[uai] in caseKit.rules
    }

    ghost predicate Fits() {
      RulesFit(caseKit, rain, rules)
    }

    ghost predicate Valid()
      reads this, caseKit, caseKit.view, caseKit.keys, caseKit.kbase, caseKit.cases.Values
      reads caseKit.rules`caseModeOffset, caseKit.rules`idleModeOffset, caseKit.rules`isRuleAtIdle
      reads rain`ruleStatesLogged, rain`nextSnapshotSetSgi, rain`snapshotSetSgisByRuleUai
      reads rain.rules.Values`snapshotSetSgi
    {
      Fits() && caseKit.Valid() && rain.Valid() && rain.SetsMatch()
    }

    lemma RainMayCycle()
      requires Fits() && caseKit.Grounded()
      ensures rain.RulesValid()
    {
    }

    // ----- What follows a rule's being trapped -----

    /** A case asked for on the rule trapped, if it is in auto mode. */
    method AskForCase(rule: Rule, trapTime: int) returns (fault: Fault)
      requires caseKit.Valid() && rule in caseKit.rules
      modifies caseKit, caseKit.view, caseKit.keys, caseKit.kbase, rule`caseModeOffset
      ensures caseKit.Valid()
      ensures Next(old(caseKit.Books()), Trapped(rule, trapTime, fault == NoFault), caseKit.Books())
      ensures !old(rule.IsInAutoMode()) ==> fault == NoFault
    {
      fault := NoFault;
      caseKit.ModeInBooks(rule);
      if rule.IsInAutoMode() {
        ghost var opening;
        fault, opening := caseKit.CreateAndOwnCase(rule, trapTime);
      } else {
        TrappedInVain(caseKit.Books(), rule, trapTime);
      }
    }

    method NoteTrapped(uaiTrappedRule: nat, clearsKnob: bool)
      requires caseKit.Valid()
      modifies `alerts, `areAllRulesNotInCaseModePutToIdle
      ensures caseKit.Valid() && caseKit.Books() == old(caseKit.Books())
      ensures alerts == old(alerts) + [uaiTrappedRule]
      ensures areAllRulesNotInCaseModePutToIdle <==> old(areAllRulesNotInCaseModePutToIdle) && !clearsKnob
    {
      alerts := alerts + [uaiTrappedRule];
      if clearsKnob {
        areAllRulesNotInCaseModePutToIdle := false;
      }
    }

    /** The alert, the case asked for, and the knob that idles all rules. */
    method ActOnTrapped(timestampNow: int, uaiTrappedRule: nat) returns (fault: Fault)
      requires caseKit.Valid() && Fits() && uaiTrappedRule in rules
      modifies this, caseKit, caseKit.view, caseKit.keys, caseKit.kbase, caseKit.rules`caseModeOffset
      ensures caseKit.Valid()
      ensures Next(old(caseKit.Books()), Trapped(rules[uaiTrappedRule], timestampNow, fault == NoFault),
                   caseKit.Books())
      ensures alerts == old(alerts) + [uaiTrappedRule]
      ensures areAllRulesNotInCaseModePutToIdle <==>
                old(areAllRulesNotInCaseModePutToIdle)
                && (!old(rules[uaiTrappedRule].IsInAutoMode()) || fault != NoFault)
    {
      var rule := rules[uaiTrappedRule];
      var isAuto := rule.IsInAutoMode();
      fault := AskForCase(rule, timestampNow);
      NoteTrapped(uaiTrappedRule, isAuto && fault == NoFault);
    }

    // ----- A cycle -----

    /** What the trap sees: each rule's results logged, and its mode. */
    ghost predicate ColumnsTell(columns: seq<RuleColumn>, logs: map<nat, seq<nat>>, modes: map<Rule, Mode>) {
      && |columns| == |rain.ruleUaisAsLogsIterate|
      && forall i :: 0 <= i < |columns| ==>
           var uai := rain.ruleUaisAsLogsIterate[i];
           && uai in rules && columns[i].uai == uai && uai in logs && columns[i].log == logs[uai]
           && rules[uai] in modes && (columns[i].isAuto <==> modes[rules[uai]] == Auto)
    }

    /** And what the trap, if it is due, says of that. */
    ghost predicate TrapSees(columns: seq<RuleColumn>, result: TrapResult, logs: map<nat, seq<nat>>,
                             modes: map<Rule, Mode>) {
      && ColumnsTell(columns, logs, modes)
      && SpanFits(columns, rain.trapSpanInCycles) && rain.TrapSays(columns, result)
    }

    lemma ColumnsDoTell(columns: seq<RuleColumn>)
      requires Fits() && caseKit.Grounded() && rain.Valid() && columns == rain.Columns()
      ensures ColumnsTell(columns, rain.ruleStatesLogged, caseKit.Modes())
    {
      forall i | 0 <= i < |columns|
        ensures var uai := rain.ruleUaisAsLogsIterate[i];
                && uai in rules && columns[i].uai == uai && uai in rain.ruleStatesLogged
                && columns[i].log == rain.ruleStatesLogged[uai]
                && rules[uai] in caseKit.Modes() && (columns[i].isAuto <==> caseKit.Modes()[rules[uai]] == Auto)
      {
        var uai := rain.ruleUaisAsLogsIterate[i];
        assert uai in rules && columns[i] == rain.ColumnAt(i);
        caseKit.ModeInBooks(rules[uai]);
      }
    }

    /** The rules cycled, and the trap sprung if it is due: nothing to do with the cases out. */
    method RainCycles(obs: map<nat, Observation>)
      returns (uaiTrappedRule: nat, ghost columns: seq<RuleColumn>, ghost result: TrapResult)
      requires Valid() && rules.Keys <= obs.Keys
      modifies rain, rain.register, rules.Values`bindexNow, rules.Values`snapshotSetSgi
      ensures rain.Valid() && rain.SetsMatch() && caseKit.Grounded() && caseKit.Books() == old(caseKit.Books())
      ensures rain.ruleStatesLogged == PushedAt(old(rain.ruleStatesLogged), old(rain.Results(obs)), rules.Keys)
      ensures columns == rain.Columns() && SpanFits(columns, rain.trapSpanInCycles) && rain.TrapSays(columns, result)
      ensures uaiTrappedRule == (if Enables(old(rain.cyclesUntilTrapEnable)) then result.uaiTrapped else 0)
    {
      RainMayCycle();
      uaiTrappedRule, columns, result := rain.CycleRulesInKitAndSayResults(obs);
      caseKit.StaysGrounded();
    }

    /** The same, with what the trap has seen and what that says of the rule it has caught. */
    method RainTells(obs: map<nat, Observation>)
      returns (uaiTrappedRule: nat, ghost columns: seq<RuleColumn>, ghost result: TrapResult)
      requires Valid() && rules.Keys <= obs.Keys
      modifies rain, rain.register, rules.Values`bindexNow, rules.Values`snapshotSetSgi
      ensures rain.Valid() && rain.SetsMatch() && caseKit.Valid() && caseKit.Books() == old(caseKit.Books())
      ensures rain.ruleStatesLogged == PushedAt(old(rain.ruleStatesLogged), old(rain.Results(obs)), rules.Keys)
      ensures TrapSees(columns, result, rain.ruleStatesLogged, caseKit.Modes())
      ensures uaiTrappedRule == (if Enables(old(rain.cyclesUntilTrapEnable)) then result.uaiTrapped else 0)
      ensures uaiTrappedRule != 0 ==> CaughtInAuto(uaiTrappedRule, caseKit.Books())
    {
      uaiTrappedRule, columns, result := RainCycles(obs);
      rain.ColumnsFit();
      ColumnsDoTell(columns);
      if uaiTrappedRule != 0 {
        CaughtIsAuto(columns, result, rain.ruleStatesLogged, caseKit.Modes());
      }
    }

    ghost predicate CaughtInAuto(uai: nat, s: Ledger<Rule>) {
      uai in rules && rules[uai] in s.modes && s.modes[rules[uai]] == Auto
    }

    /** The trap only catches rules in auto mode. */
    lemma CaughtIsAuto(columns: seq<RuleColumn>, result: TrapResult, logs: map<nat, seq<nat>>, modes: map<Rule, Mode>)
      requires SpanFits(columns, rain.trapSpanInCycles) && rain.TrapSays(columns, result)
      requires UaisSound(columns) && ColumnsTell(columns, logs, modes) && result.uaiTrapped != 0
      ensures result.uaiTrapped in rules && rules[result.uaiTrapped] in modes
      ensures modes[rules[result.uaiTrapped]] == Auto
    {
      assert result == Sprung(columns, rain.trapSpanInCycles);
      TrapCatchesMostFailing(columns, rain.trapSpanInCycles);
      var i :| 0 <= i < |columns| && HasUai(columns[i], result.uaiTrapped) && columns[i].isAuto;
    }

    /** A rule in auto mode that is trapped gives rise to a case, unless ten are out or it
        cannot begin. */
    lemma CaseFollows(s: Ledger<Rule>, rule: Rule, time: int, begins: bool, t: Ledger<Rule>)
      requires Next(s, Trapped(rule, time, begins), t) && rule in s.modes && s.modes[rule] == Auto
      ensures if |s.cases| < MAX_CASES && begins then Adds(s, rule, time, t) else t == s
    {
    }

    /** What a rule's being trapped leads to: an alert and, unless ten cases are out already or
        it cannot begin, a case on the rule.  The knob that idles all rules is turned off unless
        the case could not begin: also when ten are out and none follows. */
    ghost predicate FollowsUp(uai: nat, time: int, fault: Fault, before: Ledger<Rule>, after: Ledger<Rule>,
                              alertsBefore: seq<nat>, idledBefore: bool)
      reads `alerts, `areAllRulesNotInCaseModePutToIdle
    {
      if uai == 0 then
        && after == before && alerts == alertsBefore && areAllRulesNotInCaseModePutToIdle == idledBefore
      else
        && CaughtInAuto(uai, before)
        && (if |before.cases| < MAX_CASES && fault == NoFault then Adds(before, rules[uai], time, after)
            else after == before)
        && alerts == alertsBefore + [uai]
        && (areAllRulesNotInCaseModePutToIdle <==> idledBefore && fault != NoFault)
    }

    method FollowUp(timestampNow: int, uaiTrappedRule: nat, ghost before: Ledger<Rule>,
                    ghost alertsBefore: seq<nat>, ghost idledBefore: bool) returns (fault: Fault)
      requires Fits() && caseKit.Valid() && rain.Valid() && rain.SetsMatch()
      requires uaiTrappedRule != 0 ==> CaughtInAuto(uaiTrappedRule, before)
      requires before == caseKit.Books() && alertsBefore == alerts
      requires idledBefore == areAllRulesNotInCaseModePutToIdle
      modifies this, caseKit, caseKit.view, caseKit.keys, caseKit.kbase, caseKit.rules`caseModeOffset
      ensures caseKit.Valid() && rain.Valid() && rain.SetsMatch() && rain.ruleStatesLogged == old(rain.ruleStatesLogged)
      ensures FollowsUp(uaiTrappedRule, timestampNow, fault, before, caseKit.Books(), alertsBefore, idledBefore)
    {
      fault := NoFault;
      if uaiTrappedRule != 0 {
        caseKit.ModeInBooks(rules[uaiTrappedRule]);
        fault := ActOnTrapped(timestampNow, uaiTrappedRule);
        CaseFollows(before, rules[uaiTrappedRule], timestampNow, fault == NoFault, caseKit.Books());
      }
    }

    /** A cycle of the kit.  The rule the trap catches, if it is due and catches one, is in auto
        mode, so that a case on it follows unless ten are out already or it cannot begin. */
    method Cycle(timestampNow: int, obs: map<nat, Observation>)
      returns (uaiTrappedRule: nat, fault: Fault, ghost columns: seq<RuleColumn>, ghost result: TrapResult)
      requires Valid() && rules.Keys <= obs.Keys
      modifies this, rain, rain.register, rules.Values`bindexNow, rules.Values`snapshotSetSgi
      modifies caseKit, caseKit.view, caseKit.keys, caseKit.kbase, caseKit.rules`caseModeOffset
      ensures Valid()
      ensures rain.ruleStatesLogged == PushedAt(old(rain.ruleStatesLogged), old(rain.Results(obs)), rules.Keys)
      ensures TrapSees(columns, result, rain.ruleStatesLogged, old(caseKit.Modes()))
      ensures uaiTrappedRule == (if Enables(old(rain.cyclesUntilTrapEnable)) then result.uaiTrapped else 0)
      ensures FollowsUp(uaiTrappedRule, timestampNow, fault, old(caseKit.Books()), caseKit.Books(),
                        old(alerts), old(areAllRulesNotInCaseModePutToIdle))
    {
      ghost var before, alertsBefore, idledBefore := caseKit.Books(), alerts, areAllRulesNotInCaseModePutToIdle;
      uaiTrappedRule, columns, result := RainTells(obs);
      fault := FollowUp(timestampNow, uaiTrappedRule, before, alertsBefore, idledBefore);
    }

    // ----- Idling -----

    method IdleAllRulesNotInCaseMode(userWantsIdleMode: bool)
      requires Valid()
      modifies this`areAllRulesNotInCaseModePutToIdle, caseKit.rules`idleModeOffset, caseKit.rules`isRuleAtIdle
      ensures Valid() && areAllRulesNotInCaseModePutToIdle == userWantsIdleMode
      ensures Next(old(caseKit.Books()), RulesIdled(rules.Values, userWantsIdleMode), caseKit.Books())
    {
      areAllRulesNotInCaseModePutToIdle := userWantsIdleMode;
      IdleEach(userWantsIdleMode);
    }

    method IdleEach(wanted: bool)
      requires Fits() && caseKit.Valid()
      modifies caseKit.rules`idleModeOffset, caseKit.rules`isRuleAtIdle
      ensures caseKit.Valid()
      ensures Next(old(caseKit.Books()), RulesIdled(rules.Values, wanted), caseKit.Books())
    {
      BooksIdled(caseKit.Books(), rules.Values, wanted);
      var walk := AnyOrder(rules.Keys);
      IdleInTurn(walk, wanted);
    }

    method IdleInTurn(walk: seq<nat>, wanted: bool)
      requires Fits() && caseKit.Grounded() && Range(walk) == rules.Keys
      modifies caseKit.rules`idleModeOffset, caseKit.rules`isRuleAtIdle
      ensures caseKit.Grounded() && caseKit.Modes() == IdledIn(old(caseKit.Modes()), rules.Values, wanted)
    {
      ghost var modes := caseKit.Modes();
      ghost var idlings := IdlingsOf(modes, rules, walk, wanted);
      IdlingsStartAndEnd(modes, rules, walk, wanted, idlings);
      assert forall i :: 0 <= i < |walk| ==> walk[i] in Range(walk);
      for i := 0 to |walk|
        invariant caseKit.Grounded() && caseKit.Modes() == idlings[i]
      {
        IdleNext(walk, i, wanted, modes, idlings);
      }
    }

    method IdleNext(walk: seq<nat>, i: nat, wanted: bool, ghost modes: map<Rule, Mode>,
                    ghost idlings: seq<map<Rule, Mode>>)
      requires Fits() && caseKit.Grounded() && i < |walk| && walk[i] in rules
      requires AreIdlings(modes, rules, walk, wanted, idlings) && caseKit.Modes() == idlings[i]
      modifies caseKit.rules`idleModeOffset, caseKit.rules`isRuleAtIdle
      ensures caseKit.Grounded() && caseKit.Modes() == idlings[i + 1]
    {
      NextIdling(modes, rules, walk, wanted, idlings, i);
      SetOneIdle(rules[walk[i]], wanted);
    }

    method SetOneIdle(rule: Rule, wanted: bool)
      requires caseKit.Grounded() && rule in caseKit.rules
      modifies rule`idleModeOffset, rule`isRuleAtIdle
      ensures caseKit.Grounded()
      ensures caseKit.Modes() == IdledIn(old(caseKit.Modes()), {rule}, wanted)
    {
      rule.SetIdleModeTo(wanted);
    }
  }
}
