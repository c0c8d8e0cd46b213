/** The rainfall of a rule kit as an object: each cycle it logs the result of every rule,
    and when its trap is enabled it finds the rule to make a case of, by way of the register
    it shares with every other rainfall. */
module RainRuleKits {
  import opened Nodes
  import opened Rules
  import opened Snapshots
  import opened Trap
  import Binning
  import Rainfall

  const REGISTER_ROWS := Rainfall.REGISTER_ROWS
  const NUM_BINS := Binning.NUM_BINS

  /** The newest result in front, the oldest gone. */
  function Pushed(log: seq<nat>, result: nat): (r: seq<nat>)
    requires log != []
    ensures |r| == |log|
  {
    [result] + log[..|log| - 1]
  }

  /** The logs with the results of some rules pushed. */
  function PushedAt(logs: map<nat, seq<nat>>, results: map<nat, nat>, uais: set<nat>): map<nat, seq<nat>> {
    map uai | uai in logs ::
      if uai in uais && uai in results && logs[uai] != [] then Pushed(logs[uai], results[uai]) else logs[uai]
  }

  lemma PushedOneMore(logs: map<nat, seq<nat>>, results: map<nat, nat>, walk: seq<nat>, i: nat)
    requires Distinct(walk) && i < |walk| && walk[i] in logs && walk[i] in results && logs[walk[i]] != []
    ensures var some := PushedAt(logs, results, Range(walk[..i]));
            && some[walk[i]] == logs[walk[i]]
            && PushedAt(logs, results, Range(walk[..i + 1])) == some[walk[i] := Pushed(logs[walk[i]], results[walk[i]])]
  {
    assert Range(walk[..i + 1]) == Range(walk[..i]) + {walk[i]} by {
      assert walk[..i + 1] == walk[..i] + [walk[i]];
    }
  }

  /** The logs after each of the rules of a walk in turn. */
  ghost predicate ArePushes(logs: map<nat, seq<nat>>, results: map<nat, nat>, walk: seq<nat>,
                            pushes: seq<map<nat, seq<nat>>>) {
    && |pushes| == |walk| + 1
    && forall i {:trigger walk[..i]} :: 0 <= i < |pushes| ==> pushes[i] == PushedAt(logs, results, Range(walk[..i]))
  }

  ghost function PushesOf(logs: map<nat, seq<nat>>, results: map<nat, nat>, walk: seq<nat>):
    (pushes: seq<map<nat, seq<nat>>>)
    ensures ArePushes(logs, results, walk, pushes)
  {
    seq(|walk| + 1, i requires 0 <= i <= |walk| => PushedAt(logs, results, Range(walk[..i])))
  }

  lemma PushesStartAndEnd(logs: map<nat, seq<nat>>, results: map<nat, nat>, walk: seq<nat>,
                          pushes: seq<map<nat, seq<nat>>>)
    requires ArePushes(logs, results, walk, pushes)
    ensures pushes[0] == logs && pushes[|walk|] == PushedAt(logs, results, Range(walk))
  {
    assert walk[..0] == [] && walk[..|walk|] == walk;
    assert PushedAt(logs, results, Range(walk[..0])) == logs;
  }

  lemma NextPush(logs: map<nat, seq<nat>>, results: map<nat, nat>, walk: seq<nat>,
                 pushes: seq<map<nat, seq<nat>>>, i: nat)
    requires ArePushes(logs, results, walk, pushes)
    requires Distinct(walk) && i < |walk| && walk[i] in logs && walk[i] in results
    requires walk[i] in pushes[i] && pushes[i][walk[i]] != []
    ensures pushes[i + 1] == pushes[i][walk[i] := Pushed(pushes[i][walk[i]], results[walk[i]])]
  {
    assert pushes[i] == PushedAt(logs, results, Range(walk[..i]));
    PushedOneMore(logs, results, walk, i);
  }

  // ----- What the logs hold -----

  /** The logs of some rules after so many cycles' results. */
  function LogsAfter(logs: map<nat, seq<nat>>, uais: set<nat>, run: seq<map<nat, nat>>): map<nat, seq<nat>> {
    if run == [] then logs else PushedAt(LogsAfter(logs, uais, run[..|run| - 1]), run[|run| - 1], uais)
  }

  function ResultsOf(run: seq<map<nat, nat>>, uai: nat): seq<nat>
    requires forall k :: 0 <= k < |run| ==> uai in run[k]
  {
    seq(|run|, k requires 0 <= k < |run| => run[k][uai])
  }

  ghost predicate HoldsLatest(log: seq<nat>, before: seq<nat>, results: seq<nat>) {
    && |log| == |before|
    && forall r :: 0 <= r < |log| ==>
         log[r] == if r < |results| then results[|results| - 1 - r] else before[r - |results|]
  }

  lemma HoldsOneMore(log: seq<nat>, before: seq<nat>, results: seq<nat>, result: nat)
    requires HoldsLatest(log, before, results) && log != []
    ensures HoldsLatest(Pushed(log, result), before, results + [result])
  {
  }

  /** A log holds the results of the latest cycles, the newest first, and behind them what it held. */
  lemma {:induction false} LogsHoldLatest(logs: map<nat, seq<nat>>, uais: set<nat>, run: seq<map<nat, nat>>, uai: nat)
    requires uai in uais && uai in logs && logs[uai] != [] && forall k :: 0 <= k < |run| ==> uai in run[k]
    ensures uai in LogsAfter(logs, uais, run)
    ensures HoldsLatest(LogsAfter(logs, uais, run)[uai], logs[uai], ResultsOf(run, uai))
  {
    if run != [] {
      var front := run[..|run| - 1];
      LogsHoldLatest(logs, uais, front, uai);
      HoldsOneMore(LogsAfter(logs, uais, front)[uai], logs[uai], ResultsOf(front, uai), run[|run| - 1][uai]);
      assert ResultsOf(run, uai) == ResultsOf(front, uai) + [run[|run| - 1][uai]];
    }
  }

  /** The rules of a walk that report a failure in auto mode. */
  function FailingOn(results: map<nat, nat>, walk: seq<nat>): set<nat> {
    set uai | uai in walk && uai in results && results[uai] == BINDEX_AUTO_FAIL
  }

  /** A rule has failed in auto mode if its data are valid and its test applies and is not passed. */
  lemma FailingMeans(modes: map<nat, Mode>, obs: map<nat, Observation>, results: map<nat, nat>, walk: seq<nat>,
                     uai: nat)
    requires results.Keys == modes.Keys && modes.Keys <= obs.Keys
    requires forall u :: u in results ==> results[u] == Bindex(modes[u], obs[u])
    ensures uai in FailingOn(results, walk) <==>
              && uai in walk && uai in modes && modes[uai] == Auto
              && obs[uai].valid && obs[uai].testIf && !obs[uai].testThen
  {
  }

  lemma FailingOneMore(results: map<nat, nat>, walk: seq<nat>, i: nat)
    requires Distinct(walk) && i < |walk| && walk[i] in results
    ensures walk[i] !in FailingOn(results, walk[..i])
    ensures FailingOn(results, walk[..i + 1])
         == FailingOn(results, walk[..i]) + if results[walk[i]] == BINDEX_AUTO_FAIL then {walk[i]} else {}
  {
    assert walk[..i + 1] == walk[..i] + [walk[i]];
  }

  /** One rule's result told: a set more if it is a failure in auto mode. */
  function SetSaved(s: Sets, uai: nat, result: nat): Sets {
    if result != BINDEX_AUTO_FAIL then s else Sets(s.latest[uai := s.next], s.kept + {s.next}, s.next + 1)
  }

  lemma SavesNext(s: Sets, results: map<nat, nat>, walk: seq<nat>, i: nat, t: Sets)
    requires Distinct(walk) && i < |walk| && walk[i] in results && walk[i] in s.latest
    requires Saves(s, FailingOn(results, walk[..i]), t)
    ensures Saves(s, FailingOn(results, walk[..i + 1]), SetSaved(t, walk[i], results[walk[i]]))
  {
    FailingOneMore(results, walk, i);
    if results[walk[i]] == BINDEX_AUTO_FAIL {
      SavesOneMore(s, FailingOn(results, walk[..i]), t, walk[i]);
    } else {
      assert FailingOn(results, walk[..i + 1]) == FailingOn(results, walk[..i]);
    }
  }

  class RainRuleKit {
    const register: array2<bool>
    const rules: map<nat, Rule>
    const ruleUaisAsRulesIterate: seq<nat>
    const ruleUaisAsLogsIterate: seq<nat>
    const trapSpanInCycles: nat
    var ruleStatesLogged: map<nat, seq<nat>>
    var cyclesUntilTrapEnable: int
    var nextSnapshotSetSgi: nat
    var snapshotSetsKept: set<nat>    // the numbers of the sets the time axis keeps
    var snapshotSetSgisByRuleUai: map<nat, nat>

    /** What never changes about the kit. */
    ghost predicate Fixed() {
      && register.Length0 == REGISTER_ROWS && register.Length1 == NUM_BINS
      && trapSpanInCycles <= REGISTER_ROWS && |ruleUaisAsLogsIterate| <= NUM_BINS
      && Distinct(ruleUaisAsLogsIterate) && Range(ruleUaisAsLogsIterate) == rules.Keys
      && Distinct(ruleUaisAsRulesIterate) && Range(ruleUaisAsRulesIterate) == rules.Keys
      && forall uai :: uai in rules ==> uai != 0 && rules[uai].ruleUai == uai
    }

    ghost predicate LogsFit()
      reads `ruleStatesLogged, `nextSnapshotSetSgi
    {
      && ruleStatesLogged.Keys == rules.Keys && nextSnapshotSetSgi > 0
      && forall uai :: uai in ruleStatesLogged ==>
           0 < |ruleStatesLogged[uai]| && trapSpanInCycles <= |ruleStatesLogged[uai]|
    }

    ghost predicate Valid()
      reads `ruleStatesLogged, `nextSnapshotSetSgi
    {
      Fixed() && LogsFit()
    }

    ghost predicate RulesValid()
      reads rules.Values`caseModeOffset, rules.Values`idleModeOffset, rules.Values`isRuleAtIdle
    {
      forall uai :: uai in rules ==> rules[uai].Valid()
    }

    /** The tables of the rules and of their logs are each iterated in an order of its own,
        which stays the same. */
    constructor (register: array2<bool>, rules: map<nat, Rule>, rulesOrder: seq<nat>, logsOrder: seq<nat>,
                 logSize: nat, trapSpanInCycles: nat)
      requires register.Length0 == REGISTER_ROWS && register.Length1 == NUM_BINS
      requires trapSpanInCycles <= REGISTER_ROWS && trapSpanInCycles <= logSize && 0 < logSize
      requires |logsOrder| <= NUM_BINS
      requires Distinct(rulesOrder) && Range(rulesOrder) == rules.Keys
      requires Distinct(logsOrder) && Range(logsOrder) == rules.Keys
      requires forall uai :: uai in rules ==> uai != 0 && rules[uai].ruleUai == uai
      ensures Valid() && this.rules == rules && this.register == register
      ensures InOrder(SetsNow())
      ensures (forall uai :: uai in rules ==> rules[uai].snapshotSetSgi == 0) ==> SetsMatch()
    {
      this.register, this.rules := register, rules;
      ruleUaisAsRulesIterate, ruleUaisAsLogsIterate := rulesOrder, logsOrder;
      this.trapSpanInCycles, cyclesUntilTrapEnable := trapSpanInCycles, trapSpanInCycles;
      ruleStatesLogged := map uai | uai in rules :: seq(logSize, _ => BINDEX_UNAVAILABLE);
      nextSnapshotSetSgi := 1;
      snapshotSetsKept := {};
      snapshotSetSgisByRuleUai := map uai | uai in rules :: 0;
    }

    ghost function SetsNow(): Sets
      reads `snapshotSetSgisByRuleUai, `snapshotSetsKept, `nextSnapshotSetSgi
    {
      Sets(snapshotSetSgisByRuleUai, snapshotSetsKept, nextSnapshotSetSgi)
    }

    /** The kit's table of set numbers holds what the rules hold. */
    ghost predicate SetsMatch()
      reads `snapshotSetSgisByRuleUai, rules.Values`snapshotSetSgi
    {
      && snapshotSetSgisByRuleUai.Keys == rules.Keys
      && forall uai {:trigger snapshotSetSgisByRuleUai[uai]} :: uai in rules ==>
           snapshotSetSgisByRuleUai[uai] == rules[uai].snapshotSetSgi
    }

    /** The rules on which a case is out. */
    ghost function InCaseNow(): set<nat>
      reads rules.Values`caseModeOffset, rules.Values`idleModeOffset
    {
      set uai | uai in rules && rules[uai].SayMode() == InCase
    }

    function ColumnAt(i: nat): RuleColumn
      requires i < |ruleUaisAsLogsIterate|
      requires ruleUaisAsLogsIterate[i] in rules && ruleUaisAsLogsIterate[i] in ruleStatesLogged
      reads this`ruleStatesLogged
      reads rules.Values`caseModeOffset, rules.Values`idleModeOffset, rules.Values`snapshotSetSgi
    {
      var uai := ruleUaisAsLogsIterate[i];
      RuleColumn(uai, ruleStatesLogged[uai], rules[uai].IsInAutoMode(), rules[uai].snapshotSetSgi == 0)
    }

    /** The first `n` rules as the trap sees them, in the order their logs iterate. */
    ghost function ColumnsUpTo(n: nat): (r: seq<RuleColumn>)
      requires n <= |ruleUaisAsLogsIterate|
      requires forall i :: 0 <= i < n ==>
                 ruleUaisAsLogsIterate[i] in rules && ruleUaisAsLogsIterate[i] in ruleStatesLogged
      reads `ruleStatesLogged
      reads rules.Values`caseModeOffset, rules.Values`idleModeOffset, rules.Values`snapshotSetSgi
      ensures |r| == n && forall i :: 0 <= i < n ==> r[i] == ColumnAt(i)
    {
      if n == 0 then [] else ColumnsUpTo(n - 1) + [ColumnAt(n - 1)]
    }

    ghost function Columns(): (r: seq<RuleColumn>)
      requires Valid()
      reads `ruleStatesLogged, `nextSnapshotSetSgi
      reads rules.Values`caseModeOffset, rules.Values`idleModeOffset, rules.Values`snapshotSetSgi
      ensures |r| == |ruleUaisAsLogsIterate|
      ensures forall i :: 0 <= i < |r| ==> ruleUaisAsLogsIterate[i] in rules && r[i] == ColumnAt(i)
    {
      assert forall i :: 0 <= i < |ruleUaisAsLogsIterate| ==> ruleUaisAsLogsIterate[i] in Range(ruleUaisAsLogsIterate);
      ColumnsUpTo(|ruleUaisAsLogsIterate|)
    }

    // ----- The register as the trap's columns -----

    /** A column shows one rule's failures, row by row. */
    ghost predicate ColumnShows(column: nat, c: RuleColumn, upTo: nat)
      requires register.Length0 == REGISTER_ROWS && register.Length1 == NUM_BINS
      requires column < NUM_BINS && upTo <= |c.log| && upTo <= REGISTER_ROWS
      reads register
    {
      forall r :: 0 <= r < upTo ==> (register[r, column] <==> c.isAuto && c.log[r] == BINDEX_AUTO_FAIL)
    }

    lemma ColumnsFit()
      requires Valid()
      ensures SpanFits(Columns(), trapSpanInCycles) && UaisSound(Columns())
    {
      var columns := Columns();
      forall i | 0 <= i < |columns|
        ensures trapSpanInCycles <= |columns[i].log| && columns[i].uai != 0
      {
        assert ruleUaisAsLogsIterate[i] in Range(ruleUaisAsLogsIterate);
      }
    }

    /** One column of the register overwritten with the failures of one rule. */
    method WriteColumn(column: nat, log: seq<nat>, ruleInAutoMode: bool, ghost c: RuleColumn)
      requires Valid() && column < NUM_BINS && trapSpanInCycles <= |log|
      requires c.log == log && c.isAuto == ruleInAutoMode
      modifies register
      ensures Valid()
      ensures ColumnShows(column, c, trapSpanInCycles)
      ensures forall r, b :: 0 <= r < REGISTER_ROWS && 0 <= b < NUM_BINS && b != column ==>
                register[r, b] == old(register[r, b])
    {
      for row := 0 to trapSpanInCycles
        invariant ColumnShows(column, c, row)
        invariant forall r, b :: 0 <= r < REGISTER_ROWS && 0 <= b < NUM_BINS && b != column ==>
                    register[r, b] == old(register[r, b])
      {
        register[row, column] := log[row] == BINDEX_AUTO_FAIL && ruleInAutoMode;
      }
    }

    /** The failures of the first rules are on show. */
    ghost predicate Shown(columns: seq<RuleColumn>, upTo: nat)
      requires Valid() && upTo <= |columns| <= NUM_BINS && SpanFits(columns, trapSpanInCycles)
      reads register, `ruleStatesLogged, `nextSnapshotSetSgi
    {
      forall j :: 0 <= j < upTo ==> ColumnShows(j, columns[j], trapSpanInCycles)
    }

    method WriteNext(i: nat, ghost columns: seq<RuleColumn>) returns (hasNoSnapshot: bool)
      requires Valid() && columns == Columns() && i < |columns|
      requires SpanFits(columns, trapSpanInCycles) && Shown(columns, i)
      modifies register
      ensures Valid() && Shown(columns, i + 1) && hasNoSnapshot == columns[i].hasNoSnapshot
    {
      var uai := ruleUaisAsLogsIterate[i];
      assert uai in Range(ruleUaisAsLogsIterate);
      WriteColumn(i, ruleStatesLogged[uai], rules[uai].IsInAutoMode(), columns[i]);
      assert forall j :: 0 <= j < i ==> ColumnShows(j, columns[j], trapSpanInCycles);
      hasNoSnapshot := rules[uai].snapshotSetSgi == 0;
    }

    /** Every rule's failures written to the register, and which rules never had a snapshot. */
    method WriteFailsOnRulesToRainfall(ghost columns: seq<RuleColumn>) returns (hasNoSnapshot: seq<bool>)
      requires Valid() && columns == Columns() && SpanFits(columns, trapSpanInCycles)
      modifies register
      ensures Valid() && Shown(columns, |columns|)
      ensures |hasNoSnapshot| == |columns|
      ensures forall i :: 0 <= i < |columns| ==> hasNoSnapshot[i] == columns[i].hasNoSnapshot
    {
      hasNoSnapshot := [];
      for i := 0 to |ruleUaisAsLogsIterate|
        invariant Valid() && |hasNoSnapshot| == i && Shown(columns, i)
        invariant forall j :: 0 <= j < i ==> hasNoSnapshot[j] == columns[j].hasNoSnapshot
      {
        var flag := WriteNext(i, columns);
        hasNoSnapshot := hasNoSnapshot + [flag];
      }
    }

    /** Each column's trues counted, row after row. */
    method SumFails(ghost columns: seq<RuleColumn>) returns (sums: seq<nat>)
      requires Valid() && |columns| == |ruleUaisAsLogsIterate|
      requires SpanFits(columns, trapSpanInCycles) && Shown(columns, |columns|)
      ensures sums == FailCounts(columns, trapSpanInCycles)
    {
      sums := seq(|ruleUaisAsLogsIterate|, _ => 0);
      for cyclesBack := 0 to trapSpanInCycles
        invariant |sums| == |columns|
        invariant forall j :: 0 <= j < |sums| ==> sums[j] == AutoFails(columns[j], cyclesBack)
      {
        for i := 0 to |sums|
          invariant |sums| == |columns|
          invariant forall j :: 0 <= j < |sums| ==>
                      sums[j] == AutoFails(columns[j], if j < i then cyclesBack + 1 else cyclesBack)
        {
          assert ColumnShows(i, columns[i], trapSpanInCycles);
          if register[cyclesBack, i] {
            sums := sums[i := sums[i] + 1];
          }
        }
      }
    }

    /** Which rule the sums of failures single out, and which is to lose its snapshots. */
    method SingleOut(sums: seq<nat>, hasNoSnapshot: seq<bool>, ghost columns: seq<RuleColumn>)
      returns (result: TrapResult)
      requires |sums| == |hasNoSnapshot| == |columns| == |ruleUaisAsLogsIterate|
      requires forall i :: 0 <= i < |columns| ==> trapSpanInCycles <= |columns[i].log|
      requires forall i :: 0 <= i < |columns| ==> columns[i].uai == ruleUaisAsLogsIterate[i]
      requires forall i :: 0 <= i < |columns| ==> hasNoSnapshot[i] == columns[i].hasNoSnapshot
      requires sums == FailCounts(columns, trapSpanInCycles)
      ensures result == Sprung(columns, trapSpanInCycles)
    {
      if SumOfFails(sums) > FAILS_IN_EMPTY_TRAP_MAX {
        var uaiTrapped := ruleUaisAsLogsIterate[MaxElement(sums)];
        var flagged := seq(|sums|, i requires 0 <= i < |sums| =>
          sums[i] + if hasNoSnapshot[i] then 1 else 0);
        assert flagged == WithNoSnapshot(columns, sums);
        var uaiOfMark := ruleUaisAsLogsIterate[MinElement(flagged)];
        result := TrapResult(uaiTrapped, if uaiOfMark != uaiTrapped then uaiOfMark else 0);
      } else {
        result := TrapResult(0, 0);
      }
    }

    /** The trap sprung on the logs as they are, whatever the register held before. */
    method EnableTrapAndSayResult(ghost columns: seq<RuleColumn>) returns (result: TrapResult)
      requires Valid() && RulesValid() && columns == Columns()
      modifies register
      ensures Valid() && RulesValid()
      ensures SpanFits(columns, trapSpanInCycles) && result == Sprung(columns, trapSpanInCycles)
    {
      ColumnsFit();
      var hasNoSnapshot := WriteFailsOnRulesToRainfall(columns);
      var sums := SumFails(columns);
      result := SingleOut(sums, hasNoSnapshot, columns);
    }

    // ----- Cycling the rules -----

    /** What each rule is about to report. */
    ghost function Results(obs: map<nat, Observation>): map<nat, nat>
      reads rules.Values`caseModeOffset, rules.Values`idleModeOffset
    {
      map uai | uai in rules && uai in obs :: Bindex(rules[uai].SayMode(), obs[uai])
    }

    /** A set of snapshots under a new number. */
    method SaveSet(uai: nat, rule: Rule)
      requires Fixed() && SetsMatch() && uai in rules && rule == rules[uai]
      modifies this`nextSnapshotSetSgi, this`snapshotSetsKept, this`snapshotSetSgisByRuleUai, rule`snapshotSetSgi
      ensures SetsMatch() && SetsNow() == SetSaved(old(SetsNow()), uai, BINDEX_AUTO_FAIL)
    {
      rule.SaveAntecedentSnapshots(nextSnapshotSetSgi);
      snapshotSetsKept := snapshotSetsKept + {nextSnapshotSetSgi};
      snapshotSetSgisByRuleUai := snapshotSetSgisByRuleUai[uai := nextSnapshotSetSgi];
      nextSnapshotSetSgi := nextSnapshotSetSgi + 1;
    }

    method Log(uai: nat, result: nat)
      requires LogsFit() && uai in rules
      modifies this`ruleStatesLogged
      ensures LogsFit() && ruleStatesLogged == old(ruleStatesLogged)[uai := Pushed(old(ruleStatesLogged)[uai], result)]
    {
      var log := ruleStatesLogged[uai];
      ruleStatesLogged := ruleStatesLogged[uai := [result] + log[..|log| - 1]];
    }

    twostate predicate ModesUnmoved()
      reads rules.Values`caseModeOffset, rules.Values`idleModeOffset, rules.Values`isRuleAtIdle
    {
      forall rule :: rule in rules.Values ==>
        && rule.caseModeOffset == old(rule.caseModeOffset) && rule.idleModeOffset == old(rule.idleModeOffset)
        && rule.isRuleAtIdle == old(rule.isRuleAtIdle)
    }

    /** Cycling a rule leaves its mode, and so what it is to report, as it is. */
    twostate lemma ModesStay(obs: map<nat, Observation>)
      requires old(RulesValid())
      requires ModesUnmoved()
      ensures RulesValid() && Results(obs) == old(Results(obs))
    {
    }

    /** One rule cycled, its result logged, and a failure in auto mode found worth a set of
        snapshots. */
    method CycleNext(uai: nat, rule: Rule, o: Observation)
      requires Fixed() && LogsFit() && SetsMatch() && uai in rules && rule == rules[uai] && rule.Valid()
      modifies this`ruleStatesLogged, this`nextSnapshotSetSgi, this`snapshotSetsKept, this`snapshotSetSgisByRuleUai,
        rule`bindexNow, rule`snapshotSetSgi
      ensures LogsFit() && SetsMatch()
      ensures var result := Bindex(rule.SayMode(), o);
              && ruleStatesLogged == old(ruleStatesLogged)[uai := Pushed(old(ruleStatesLogged)[uai], result)]
              && SetsNow() == SetSaved(old(SetsNow()), uai, result)
      ensures ModesUnmoved()
    {
      var result := rule.CycleAndSayBindex(o);
      Log(uai, result);
      if result == BINDEX_AUTO_FAIL {
        SaveSet(uai, rule);
      }
    }

    /** The same, with the other rules left as they are. */
    method CycleAmong(uai: nat, obs: map<nat, Observation>, ghost results: map<nat, nat>)
      requires Fixed() && LogsFit() && RulesValid() && SetsMatch()
      requires Results(obs) == results && uai in rules && uai in obs
      modifies this`ruleStatesLogged, this`nextSnapshotSetSgi, this`snapshotSetsKept, this`snapshotSetSgisByRuleUai,
        rules.Values`bindexNow, rules.Values`snapshotSetSgi
      ensures LogsFit() && RulesValid() && SetsMatch() && Results(obs) == results
      ensures ruleStatesLogged == old(ruleStatesLogged)[uai := Pushed(old(ruleStatesLogged)[uai], results[uai])]
      ensures SetsNow() == SetSaved(old(SetsNow()), uai, results[uai])
    {
      assert results[uai] == Bindex(rules[uai].SayMode(), obs[uai]);
      CycleNext(uai, rules[uai], obs[uai]);
      ModesStay(obs);
    }

    /** One more rule of the table, in its turn. */
    method CycleInTurn(i: nat, obs: map<nat, Observation>, ghost results: map<nat, nat>,
                       ghost before: map<nat, seq<nat>>, ghost pushes: seq<map<nat, seq<nat>>>, ghost sets: Sets)
      requires Fixed() && LogsFit() && RulesValid() && SetsMatch() && Results(obs) == results
      requires rules.Keys <= obs.Keys && i < |ruleUaisAsRulesIterate|
      requires ArePushes(before, results, ruleUaisAsRulesIterate, pushes) && ruleStatesLogged == pushes[i]
      requires before.Keys == rules.Keys
      requires Saves(sets, FailingOn(results, ruleUaisAsRulesIterate[..i]), SetsNow())
      modifies this`ruleStatesLogged, this`nextSnapshotSetSgi, this`snapshotSetsKept, this`snapshotSetSgisByRuleUai,
        rules.Values`bindexNow, rules.Values`snapshotSetSgi
      ensures LogsFit() && RulesValid() && SetsMatch() && Results(obs) == results
      ensures ruleStatesLogged == pushes[i + 1]
      ensures Saves(sets, FailingOn(results, ruleUaisAsRulesIterate[..i + 1]), SetsNow())
    {
      assert ruleUaisAsRulesIterate[i] in Range(ruleUaisAsRulesIterate);
      NextPush(before, results, ruleUaisAsRulesIterate, pushes, i);
      SavesNext(sets, results, ruleUaisAsRulesIterate, i, SetsNow());
      CycleAmong(ruleUaisAsRulesIterate[i], obs, results);
    }

    /** Every rule cycled, in the order the table of rules iterates. */
    method CycleRules(obs: map<nat, Observation>)
      requires Valid() && RulesValid() && SetsMatch() && rules.Keys <= obs.Keys
      modifies this`ruleStatesLogged, this`nextSnapshotSetSgi, this`snapshotSetsKept, this`snapshotSetSgisByRuleUai,
        rules.Values`bindexNow, rules.Values`snapshotSetSgi
      ensures Valid() && RulesValid() && SetsMatch()
      ensures ruleStatesLogged == PushedAt(old(ruleStatesLogged), old(Results(obs)), rules.Keys)
      ensures Saves(old(SetsNow()), FailingOn(old(Results(obs)), ruleUaisAsRulesIterate), SetsNow())
    {
      ghost var before, results, walk, sets := ruleStatesLogged, Results(obs), ruleUaisAsRulesIterate, SetsNow();
      ghost var pushes := PushesOf(before, results, walk);
      assert forall i :: 0 <= i < |walk| ==> walk[i] in Range(walk);
      PushesStartAndEnd(before, results, walk, pushes);
      for i := 0 to |ruleUaisAsRulesIterate|
        invariant LogsFit() && RulesValid() && SetsMatch() && Results(obs) == results
        invariant ruleStatesLogged == pushes[i]
        invariant Saves(sets, FailingOn(results, walk[..i]), SetsNow())
      {
        CycleInTurn(i, obs, results, before, pushes, sets);
      }
      assert walk[..|walk|] == walk;
    }

    // ----- Springing the trap -----

    /** What the trap says of the columns: stated of every `c` that is `columns`, so that it is
        worked out only where `Sprung` is named. */
    ghost predicate TrapSays(columns: seq<RuleColumn>, result: TrapResult) {
      forall c {:trigger Sprung(c, trapSpanInCycles)} :: c == columns && SpanFits(c, trapSpanInCycles) ==>
        result == Sprung(c, trapSpanInCycles)
    }

    lemma WhatTrapSays(columns: seq<RuleColumn>) returns (result: TrapResult)
      requires SpanFits(columns, trapSpanInCycles)
      ensures TrapSays(columns, result)
    {
      result := Sprung(columns, trapSpanInCycles);
    }

    lemma TrapNamesOwnRules(columns: seq<RuleColumn>, result: TrapResult)
      requires SpanFits(columns, trapSpanInCycles) && TrapSays(columns, result)
      requires forall i :: 0 <= i < |columns| ==> columns[i].uai in rules
      ensures result.uaiTrapped == 0 || result.uaiTrapped in rules
      ensures result.uaiToWipe == 0 || result.uaiToWipe in rules
    {
      assert result == Sprung(columns, trapSpanInCycles);
      forall uai | uai != 0 && (uai == result.uaiTrapped || uai == result.uaiToWipe)
        ensures uai in rules
      {
        TrapNamesRules(columns, trapSpanInCycles, uai);
        var i :| 0 <= i < |columns| && HasUai(columns[i], uai);
      }
    }

    /** The rules are in order, and those on which a case is out. */
    ghost predicate InUse(inCase: set<nat>)
      reads `snapshotSetSgisByRuleUai, rules.Values`caseModeOffset, rules.Values`idleModeOffset
      reads rules.Values`isRuleAtIdle, rules.Values`snapshotSetSgi
    {
      0 !in rules && RulesValid() && SetsMatch() && inCase == InCaseNow()
    }

    method Wipe(uaiToWipe: nat, ghost inCase: set<nat>)
      requires InUse(inCase) && (uaiToWipe == 0 || uaiToWipe in rules)
      modifies this`snapshotSetsKept
      ensures SetsNow() == Wiped(old(SetsNow()), uaiToWipe, inCase)
    {
      if uaiToWipe != 0 {
        var destroyed := rules[uaiToWipe].DestroySnapshotSet();
        assert destroyed <==> uaiToWipe !in inCase;
        assert snapshotSetSgisByRuleUai[uaiToWipe] == rules[uaiToWipe].snapshotSetSgi;
        if destroyed {
          snapshotSetsKept := snapshotSetsKept - {rules[uaiToWipe].snapshotSetSgi};
        }
      }
    }

    method EnableTrap(ghost columns: seq<RuleColumn>) returns (result: TrapResult)
      requires Valid() && RulesValid() && columns == Columns()
      modifies register
      ensures SpanFits(columns, trapSpanInCycles) && TrapSays(columns, result)
      ensures result.uaiTrapped == 0 || result.uaiTrapped in rules
      ensures result.uaiToWipe == 0 || result.uaiToWipe in rules
    {
      assert forall i :: 0 <= i < |columns| ==> columns[i].uai in rules;
      result := EnableTrapAndSayResult(columns);
      TrapNamesOwnRules(columns, result);
    }

    /** The trap sprung, and the rule it picks asked to let go of its snapshots. */
    method Spring(ghost columns: seq<RuleColumn>, ghost inCase: set<nat>) returns (result: TrapResult)
      requires Valid() && InUse(inCase) && columns == Columns()
      modifies this`snapshotSetsKept, register
      ensures TrapSays(columns, result) && (result.uaiTrapped == 0 || result.uaiTrapped in rules)
      ensures SetsNow() == Wiped(old(SetsNow()), result.uaiToWipe, inCase)
    {
      result := EnableTrap(columns);
      Wipe(result.uaiToWipe, inCase);
    }

    /** The rule the trap picks to lose its set in this cycle. */
    static ghost function PickedWhen(enabled: bool, result: TrapResult): nat {
      if enabled then result.uaiToWipe else 0
    }

    /** With no rule touched since, they still are. */
    twostate lemma StaysInUse(inCase: set<nat>)
      requires old(InUse(inCase)) && unchanged(`snapshotSetSgisByRuleUai) && unchanged(rules.Values)
      ensures InUse(inCase)
    {
    }

    twostate lemma ColumnsStay()
      requires old(Valid()) && unchanged(`ruleStatesLogged, `nextSnapshotSetSgi) && unchanged(rules.Values)
      ensures Valid() && Columns() == old(Columns())
    {
      assert forall i :: 0 <= i < |Columns()| ==> Columns()[i] == old(Columns())[i];
    }

    method TrapIfDue(ghost columns: seq<RuleColumn>, ghost inCase: set<nat>)
      returns (uaiOfTrappedRule: nat, ghost result: TrapResult)
      requires Valid() && InUse(inCase) && columns == Columns() && SpanFits(columns, trapSpanInCycles)
      modifies this`cyclesUntilTrapEnable, this`snapshotSetsKept, register
      ensures cyclesUntilTrapEnable == Counted(old(cyclesUntilTrapEnable), trapSpanInCycles)
      ensures InUse(inCase) && TrapSays(columns, result)
      ensures uaiOfTrappedRule == (if Enables(old(cyclesUntilTrapEnable)) then result.uaiTrapped else 0)
      ensures uaiOfTrappedRule == 0 || uaiOfTrappedRule in rules
      ensures SetsNow()
           == Wiped(old(SetsNow()), PickedWhen(Enables(old(cyclesUntilTrapEnable)), result), inCase)
    {
      uaiOfTrappedRule := 0;
      var cyclesLeft := cyclesUntilTrapEnable - 1;
      if cyclesLeft < 1 {
        var sprung := Spring(columns, inCase);
        result := sprung;
        uaiOfTrappedRule := sprung.uaiTrapped;
        cyclesLeft := trapSpanInCycles;
      } else {
        result := WhatTrapSays(columns);
        assert 0 !in SetsNow().latest;
      }
      cyclesUntilTrapEnable := cyclesLeft;
      StaysInUse(inCase);
    }

    /** The rules' results being logged, the trap sprung if it is due: no rule is touched. */
    method TrapOnceLogged(ghost inCase: set<nat>)
      returns (uaiOfTrappedRule: nat, ghost columns: seq<RuleColumn>, ghost result: TrapResult)
      requires Valid() && InUse(inCase)
      modifies this`cyclesUntilTrapEnable, this`snapshotSetsKept, register
      ensures Valid() && InUse(inCase) && columns == Columns()
      ensures SpanFits(columns, trapSpanInCycles) && TrapSays(columns, result)
      ensures cyclesUntilTrapEnable == Counted(old(cyclesUntilTrapEnable), trapSpanInCycles)
      ensures uaiOfTrappedRule == (if Enables(old(cyclesUntilTrapEnable)) then result.uaiTrapped else 0)
      ensures uaiOfTrappedRule == 0 || uaiOfTrappedRule in rules
      ensures SetsNow()
           == Wiped(old(SetsNow()), PickedWhen(Enables(old(cyclesUntilTrapEnable)), result), inCase)
    {
      ColumnsFit();
      columns := Columns();
      uaiOfTrappedRule, result := TrapIfDue(columns, inCase);
      ColumnsStay();
    }

    // ----- A cycle of the kit -----

    /** A cycle of the kit: every rule's result logged, with a set of snapshots for each failure
        in auto mode, and, when the trap is due, the rule it catches reported - 0 is none - and
        the set of the rule it picks destroyed.  `columns` is what the trap then sees. */
    method CycleRulesInKitAndSayResults(obs: map<nat, Observation>)
      returns (uaiOfTrappedRule: nat, ghost columns: seq<RuleColumn>, ghost result: TrapResult)
      requires Valid() && RulesValid() && SetsMatch() && rules.Keys <= obs.Keys
      modifies this, register, rules.Values`bindexNow, rules.Values`snapshotSetSgi
      ensures Valid() && RulesValid() && SetsMatch()
      ensures ruleStatesLogged == PushedAt(old(ruleStatesLogged), old(Results(obs)), rules.Keys)
      ensures cyclesUntilTrapEnable == Counted(old(cyclesUntilTrapEnable), trapSpanInCycles)
      ensures columns == Columns() && SpanFits(columns, trapSpanInCycles) && TrapSays(columns, result)
      ensures uaiOfTrappedRule == (if Enables(old(cyclesUntilTrapEnable)) then result.uaiTrapped else 0)
      ensures uaiOfTrappedRule == 0 || uaiOfTrappedRule in rules
      ensures var failing := FailingOn(old(Results(obs)), ruleUaisAsRulesIterate);
              var picked := PickedWhen(Enables(old(cyclesUntilTrapEnable)), result);
              Next(old(SetsNow()), CycleEvent(failing, picked, InCaseNow()), SetsNow())
    {
      ghost var before, due := SetsNow(), Enables(cyclesUntilTrapEnable);
      ghost var failing := FailingOn(Results(obs), ruleUaisAsRulesIterate);
      CycleRules(obs);
      ghost var all, inCase := SetsNow(), InCaseNow();
      uaiOfTrappedRule, columns, result := TrapOnceLogged(inCase);
      NextHas(before, failing, all, PickedWhen(due, result), inCase);
    }
  }
}
