/** A surveillance rule: its mode, and the result it reports each cycle.

    A rule is in auto mode (it may give rise to a case), in case mode (a case on it is
    outstanding) or idle (set aside by the user).  The mode is kept as two offsets that
    are added to the result of the rule's tests. */
module Rules {

  const CASE_OFFSET: nat := 4
  const IDLE_OFFSET: nat := 7
  const BINDEX_AUTO_FAIL: nat := 0
  const BINDEX_INVALID: nat := 3
  const BINDEX_UNAVAILABLE: nat := 10

  datatype Mode = Auto | InCase | Idle

  datatype Result = Fails | Passes | Skips

  /** A rule's inputs for one cycle. */
  datatype Observation = Observation(valid: bool, testIf: bool, testThen: bool)

  function ResultOf(o: Observation): Result {
    if !o.testIf then Skips else if o.testThen then Passes else Fails
  }

  function CaseOffset(m: Mode): nat {
    if m == InCase then CASE_OFFSET else 0
  }

  function IdleOffset(m: Mode): nat {
    if m == Idle then IDLE_OFFSET else 0
  }

  function Bindex(m: Mode, o: Observation): nat {
    if !o.valid then BINDEX_INVALID
    else
      var base := if o.testIf then (if o.testThen then 1 else 0) else 2;
      base + IdleOffset(m) + CaseOffset(m)
  }

  /** The result logged tells whether the data was valid and, if so, both the mode and
      the outcome; every value but "unavailable" is one some rule can report. */
  lemma BindexTellsModeAndResult(m: Mode, o: Observation, m': Mode, o': Observation)
    ensures Bindex(m, o) < BINDEX_UNAVAILABLE
    ensures Bindex(m, o) == Bindex(m', o') <==>
              if o.valid && o'.valid then m == m' && ResultOf(o) == ResultOf(o') else !o.valid && !o'.valid
    ensures Bindex(m, o) == BINDEX_AUTO_FAIL <==> o.valid && m == Auto && ResultOf(o) == Fails
  {
    assert Bindex(m, o) == if !o.valid then 3
                           else (match ResultOf(o) case Fails => 0 case Passes => 1 case Skips => 2)
                                + (match m case Auto => 0 case InCase => 4 case Idle => 7);
  }

  // ----- Setting the mode -----

  /** A case takes the rule when it is created and gives it back when it is destroyed. */
  function CaseModeSet(wanted: bool): Mode {
    if wanted then InCase else Auto
  }

  /** The user's knob leaves a rule alone while a case is outstanding on it. */
  function IdleModeSet(m: Mode, wanted: bool): Mode {
    if m == InCase then InCase else if wanted then Idle else Auto
  }

  class Rule {
    const ruleUai: nat
    const hasDiagnostics: bool
    var caseModeOffset: nat
    var idleModeOffset: nat
    var isRuleAtIdle: bool
    var bindexNow: nat
    var snapshotSetSgi: nat    // 0 while the rule has no set of snapshots

    constructor (uai: nat, hasDiagnostics: bool)
      ensures Valid() && SayMode() == Auto && ruleUai == uai && this.hasDiagnostics == hasDiagnostics
      ensures snapshotSetSgi == 0
    {
      ruleUai := uai;
      this.hasDiagnostics := hasDiagnostics;
      caseModeOffset, idleModeOffset := 0, 0;
      isRuleAtIdle := false;
      bindexNow := 0;
      snapshotSetSgi := 0;
    }

    ghost predicate Valid()
      reads `caseModeOffset, `idleModeOffset, `isRuleAtIdle
    {
      && (caseModeOffset == 0 || caseModeOffset == CASE_OFFSET)
      && (idleModeOffset == 0 || idleModeOffset == IDLE_OFFSET)
      && (caseModeOffset == 0 || idleModeOffset == 0)
      && isRuleAtIdle == (idleModeOffset == IDLE_OFFSET)
    }

    function SayMode(): Mode
      reads `caseModeOffset, `idleModeOffset
    {
      if caseModeOffset != 0 then InCase else if idleModeOffset != 0 then Idle else Auto
    }

    predicate IsInAutoMode()
      reads `caseModeOffset, `idleModeOffset
    {
      caseModeOffset + idleModeOffset == 0
    }

    method CycleAndSayBindex(o: Observation) returns (bindex: nat)
      requires Valid()
      modifies this`bindexNow
      ensures bindex == bindexNow == Bindex(SayMode(), o)
    {
      if o.valid {
        if o.testIf {
          if o.testThen {
            bindexNow := 1 + idleModeOffset + caseModeOffset;
          } else {
            bindexNow := 0 + idleModeOffset + caseModeOffset;
          }
        } else {
          bindexNow := 2 + idleModeOffset + caseModeOffset;
        }
      } else {
        bindexNow := 3;
      }
      return bindexNow;
    }

    /** Snapshots of what the rule depends on, kept under a new number. */
    method SaveAntecedentSnapshots(newSetSgi: nat)
      modifies this`snapshotSetSgi
      ensures snapshotSetSgi == newSetSgi
    {
      snapshotSetSgi := newSetSgi;
    }

    /** Whether the rule's set of snapshots goes: not while a case on the rule is outstanding.
        The rule keeps the set's number. */
    method DestroySnapshotSet() returns (destroyed: bool)
      requires Valid()
      ensures destroyed <==> SayMode() != InCase
    {
      destroyed := caseModeOffset == 0;
    }

    /** Cases take a rule only while it is in auto mode. */
    method SetCaseModeTo(doesCaseWantRuleInCaseMode: bool)
      requires Valid() && SayMode() != Idle
      modifies this`caseModeOffset
      ensures Valid() && SayMode() == CaseModeSet(doesCaseWantRuleInCaseMode)
    {
      caseModeOffset := if doesCaseWantRuleInCaseMode then 4 else 0;
    }

    method SetIdleModeTo(doesUserWantRuleInIdleMode: bool)
      requires Valid()
      modifies this`idleModeOffset, this`isRuleAtIdle
      ensures Valid() && SayMode() == IdleModeSet(old(SayMode()), doesUserWantRuleInIdleMode)
    {
      if doesUserWantRuleInIdleMode {
        idleModeOffset := if caseModeOffset != 0 then 0 else 7;
      } else {
        idleModeOffset := 0;
      }
      isRuleAtIdle := idleModeOffset == 7;
    }
  }
}
