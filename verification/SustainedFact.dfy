/** A fact that claims another has kept one value for long enough. */
module SustainedFact {

  datatype WatchMode = True | False | TrueXorFalse

  /** What the fact watched says in one cycle, and whether that is valid. */
  datatype Observation = Observation(valid: bool, claim: bool)

  datatype State = State(first: bool, watching: bool, sustained: int, claim: bool)

  const STARTING := State(true, false, 0, false)

  function Watched(mode: WatchMode, o: Observation): bool {
    if mode == TrueXorFalse then o.claim else mode == True
  }

  function Cycled(mode: WatchMode, minCycles: int, s: State, o: Observation): State {
    var watching := if s.first then Watched(mode, o) else s.watching;
    if !o.valid then State(false, watching, s.sustained, s.claim)
    else
      var sustained := if watching != o.claim then 0
                       else if s.sustained + 1 < minCycles then s.sustained + 1 else minCycles;
      var claim := sustained > minCycles - 1;
      State(false, if claim != s.claim && mode == TrueXorFalse then o.claim else watching, sustained, claim)
  }

  function StateAfter(mode: WatchMode, minCycles: int, run: seq<Observation>): State {
    if run == [] then STARTING
    else Cycled(mode, minCycles, StateAfter(mode, minCycles, run[..|run| - 1]), run[|run| - 1])
  }

  /** The valid claims of a run, in order. */
  function Valid(run: seq<Observation>): seq<bool> {
    if run == [] then []
    else Valid(run[..|run| - 1]) + if run[|run| - 1].valid then [run[|run| - 1].claim] else []
  }

  /** The latest `m` of the claims, of which there are as many, are all `value`. */
  predicate LatestAll(claims: seq<bool>, m: nat, value: bool) {
    m <= |claims| && forall i :: |claims| - m <= i < |claims| ==> claims[i] == value
  }

  /** How many of the latest claims are `value`. */
  function Streak(claims: seq<bool>, value: bool): nat {
    if claims == [] || claims[|claims| - 1] != value then 0 else Streak(claims[..|claims| - 1], value) + 1
  }

  lemma {:induction false} StreakIsLatest(claims: seq<bool>, value: bool, m: nat)
    ensures Streak(claims, value) >= m <==> LatestAll(claims, m, value)
  {
    if m > 0 && claims != [] {
      var front := claims[..|claims| - 1];
      StreakIsLatest(front, value, m - 1);
      if LatestAll(claims, m, value) {
        assert claims[|claims| - 1] == value;
        assert forall i :: |front| - (m - 1) <= i < |front| ==> front[i] == claims[i];
      }
      if Streak(claims, value) >= m {
        assert forall i :: |front| - (m - 1) <= i < |front| ==> claims[i] == front[i];
      }
    }
  }

  /** The count kept, watching one value throughout. */
  ghost predicate Counts(s: State, minCycles: nat, watching: bool, claims: seq<bool>) {
    && s.sustained == (if Streak(claims, watching) < minCycles then Streak(claims, watching) else minCycles)
    && (s.claim <==> Streak(claims, watching) >= minCycles)
  }

  lemma {:induction false} CountsTheStreak(mode: WatchMode, minCycles: nat, run: seq<Observation>)
    requires mode != TrueXorFalse && minCycles > 0
    ensures var s := StateAfter(mode, minCycles, run);
            && (s.first <==> run == []) && (run != [] ==> s.watching == (mode == True))
            && Counts(s, minCycles, mode == True, Valid(run))
  {
    if run != [] {
      var front, last := run[..|run| - 1], run[|run| - 1];
      CountsTheStreak(mode, minCycles, front);
      if last.valid {
        assert Valid(run)[..|Valid(run)| - 1] == Valid(front);
      } else {
        assert Valid(run) == Valid(front);
      }
    }
  }

  /** Watching for true, or for false, the claim is made exactly while there have been enough
      valid observations and the latest of them, as many as wanted, all had the value watched
      for; invalid cycles have no part in it. */
  lemma ClaimIffSustained(mode: WatchMode, minCycles: nat, run: seq<Observation>)
    requires mode != TrueXorFalse && minCycles > 0
    ensures StateAfter(mode, minCycles, run).claim <==> LatestAll(Valid(run), minCycles, mode == True)
  {
    CountsTheStreak(mode, minCycles, run);
    StreakIsLatest(Valid(run), mode == True, minCycles);
  }

  // ----- Watching for either value -----

  /** The state after more observations. */
  function StateFrom(mode: WatchMode, minCycles: int, s: State, more: seq<Observation>): State {
    if more == [] then s
    else Cycled(mode, minCycles, StateFrom(mode, minCycles, s, more[..|more| - 1]), more[|more| - 1])
  }

  lemma {:induction false} StateOfParts(mode: WatchMode, minCycles: int, run: seq<Observation>, more: seq<Observation>)
    ensures StateAfter(mode, minCycles, run + more)
         == StateFrom(mode, minCycles, StateAfter(mode, minCycles, run), more)
  {
    if more == [] {
      assert run + more == run;
    } else {
      StateOfParts(mode, minCycles, run, more[..|more| - 1]);
      assert (run + more)[..|run + more| - 1] == run + more[..|more| - 1];
    }
  }

  /** A claim stands exactly while the count is full. */
  ghost predicate Tallied(s: State, minCycles: nat) {
    !s.first && 0 <= s.sustained <= minCycles && (s.claim <==> s.sustained == minCycles)
  }

  lemma {:induction false} EveryRunIsTallied(mode: WatchMode, minCycles: nat, run: seq<Observation>)
    requires minCycles > 0 && run != []
    ensures Tallied(StateAfter(mode, minCycles, run), minCycles)
  {
    var front := run[..|run| - 1];
    if front != [] {
      EveryRunIsTallied(mode, minCycles, front);
    }
  }

  /** The latest claims that are `value`, with `held` of them before the first. */
  function Carried(held: int, claims: seq<bool>, value: bool): int {
    if claims == [] then held
    else if claims[|claims| - 1] != value then 0
    else Carried(held, claims[..|claims| - 1], value) + 1
  }

  lemma ValidOfOneMore(front: seq<Observation>, last: Observation)
    ensures Valid(front + [last]) == Valid(front) + if last.valid then [last.claim] else []
  {
    assert (front + [last])[..|front|] == front;
  }

  /** No claim is made of anything in the course of `more`. */
  ghost predicate Unclaimed(minCycles: nat, s: State, more: seq<Observation>) {
    forall n {:trigger more[..n]} :: 0 <= n <= |more| ==> !StateFrom(TrueXorFalse, minCycles, s, more[..n]).claim
  }

  /** The value watched for does not come often enough in a row. */
  ghost predicate Broken(minCycles: nat, s: State, more: seq<Observation>) {
    forall n {:trigger more[..n]} ::
      0 <= n <= |more| ==> Carried(s.sustained, Valid(more[..n]), s.watching) < minCycles
  }

  lemma UnclaimedButLast(minCycles: nat, s: State, more: seq<Observation>)
    requires more != []
    ensures var front := more[..|more| - 1];
            && (Unclaimed(minCycles, s, more) <==>
                  Unclaimed(minCycles, s, front) && !StateFrom(TrueXorFalse, minCycles, s, more).claim)
            && (Broken(minCycles, s, more) <==>
                  Broken(minCycles, s, front) && Carried(s.sustained, Valid(more), s.watching) < minCycles)
  {
    var front := more[..|more| - 1];
    assert more[..|more|] == more;
    assert forall n :: 0 <= n <= |front| ==> front[..n] == more[..n];
  }

  /** One more observation in a state without a claim. */
  lemma UnclaimedStep(minCycles: nat, s: State, held: int, claims: seq<bool>, o: Observation)
    requires minCycles > 0 && Tallied(s, minCycles) && !s.claim && s.sustained == Carried(held, claims, s.watching)
    ensures var t, more := Cycled(TrueXorFalse, minCycles, s, o), if o.valid then claims + [o.claim] else claims;
            && (t.claim <==> Carried(held, more, s.watching) >= minCycles)
            && (!t.claim ==> Tallied(t, minCycles) && t.watching == s.watching
                             && t.sustained == Carried(held, more, s.watching))
  {
    assert (claims + [o.claim])[..|claims|] == claims;
  }

  /** From a state without a claim, only the value watched for can come to be claimed, however
      long the other lasts: no claim is made exactly while the value watched for never comes
      often enough in a row, and until then it goes on being the one watched for. */
  lemma {:induction false} OnlyWatchedIsClaimed(minCycles: nat, s: State, more: seq<Observation>)
    requires minCycles > 0 && Tallied(s, minCycles) && !s.claim
    ensures Unclaimed(minCycles, s, more) <==> Broken(minCycles, s, more)
    ensures Unclaimed(minCycles, s, more) ==>
              var t := StateFrom(TrueXorFalse, minCycles, s, more);
              && Tallied(t, minCycles) && !t.claim
              && t.watching == s.watching && t.sustained == Carried(s.sustained, Valid(more), s.watching)
  {
    if more == [] {
      assert more[..0] == more;
    } else {
      var front, last := more[..|more| - 1], more[|more| - 1];
      OnlyWatchedIsClaimed(minCycles, s, front);
      UnclaimedButLast(minCycles, s, more);
      if Unclaimed(minCycles, s, front) {
        assert Valid(more) == if last.valid then Valid(front) + [last.claim] else Valid(front);
        UnclaimedStep(minCycles, StateFrom(TrueXorFalse, minCycles, s, front), s.sustained, Valid(front), last);
      }
    }
  }

  ghost predicate AllAre(claims: seq<bool>, value: bool) {
    forall i :: 0 <= i < |claims| ==> claims[i] == value
  }

  function Lesser(a: int, b: int): int {
    if b < a then b else a
  }

  /** From any state on, so many valid observations of one and the same value. */
  lemma {:induction false} SameFromNowOn(minCycles: nat, s: State, more: seq<Observation>, value: bool)
    requires minCycles > 0 && Tallied(s, minCycles) && AllAre(Valid(more), value)
    ensures var t, n := StateFrom(TrueXorFalse, minCycles, s, more), |Valid(more)|;
            && Tallied(t, minCycles)
            && (if s.watching == value then t.watching == value && t.sustained == Lesser(minCycles, s.sustained + n)
                else if n == 0 then t == s
                else if s.claim then t.watching == value && t.sustained == Lesser(minCycles, n - 1)
                else t.watching != value && t.sustained == 0)
  {
    if more != [] {
      var front, last := more[..|more| - 1], more[|more| - 1];
      assert more == front + [last];
      ValidOfOneMore(front, last);
      assert AllAre(Valid(front), value) by {
        assert forall i :: 0 <= i < |Valid(front)| ==> Valid(front)[i] == Valid(more)[i];
      }
      if last.valid {
        assert Valid(more)[|Valid(more)| - 1] == last.claim;
      }
      SameFromNowOn(minCycles, s, front, value);
    }
  }

  /** Watching for either value, one that lasts for good comes to be claimed exactly if it was
      the one watched for, or the other one was being claimed, when it set in: whatever the run
      before, and whatever invalid cycles come in between. */
  lemma LastingValueIsClaimedIff(minCycles: nat, run: seq<Observation>, more: seq<Observation>, value: bool)
    requires minCycles > 0 && run != []
    requires AllAre(Valid(more), value) && |Valid(more)| > minCycles
    ensures var s := StateAfter(TrueXorFalse, minCycles, run);
            StateAfter(TrueXorFalse, minCycles, run + more).claim <==> s.watching == value || s.claim
  {
    EveryRunIsTallied(TrueXorFalse, minCycles, run);
    StateOfParts(TrueXorFalse, minCycles, run, more);
    SameFromNowOn(minCycles, StateAfter(TrueXorFalse, minCycles, run), more, value);
  }

  /** So a fact that is true once and then false for good is never claimed to be sustained. */
  lemma SustainedFalseCanBeMissed(minCycles: nat, more: seq<Observation>)
    requires minCycles > 1 && AllAre(Valid(more), false)
    ensures !StateAfter(TrueXorFalse, minCycles, [Observation(true, true)] + more).claim
  {
    var once := [Observation(true, true)];
    assert once[..0] == [];
    assert StateAfter(TrueXorFalse, minCycles, once) == State(false, true, 1, false);
    StateOfParts(TrueXorFalse, minCycles, once, more);
    SameFromNowOn(minCycles, StateAfter(TrueXorFalse, minCycles, once), more, false);
  }

  /** And one sustained true, false for a moment, and true for good after that is claimed no
      more, until it has been sustained false. */
  lemma LapseIsNotForgiven(minCycles: nat, run: seq<Observation>, more: seq<Observation>)
    requires minCycles > 0 && run != [] && AllAre(Valid(more), true)
    requires StateAfter(TrueXorFalse, minCycles, run).claim && StateAfter(TrueXorFalse, minCycles, run).watching
    ensures !StateAfter(TrueXorFalse, minCycles, run + [Observation(true, false)] + more).claim
  {
    var lapsed := run + [Observation(true, false)];
    assert lapsed[..|run|] == run;
    EveryRunIsTallied(TrueXorFalse, minCycles, lapsed);
    StateOfParts(TrueXorFalse, minCycles, lapsed, more);
    SameFromNowOn(minCycles, StateAfter(TrueXorFalse, minCycles, lapsed), more, true);
  }

  class SustainedFact {
    const watchMode: WatchMode
    var minCyclesToSustain: int
    var cyclesSustained: int
    var claimToWatch: bool
    var claimNow: bool
    var claimWas: bool
    var validNow: bool
    var validWas: bool
    var firstCycle: bool
    var timeOfClaimNow: int

    constructor (watchMode: WatchMode, minCyclesToSustain: int)
      ensures StateNow() == STARTING && this.watchMode == watchMode && this.minCyclesToSustain == minCyclesToSustain
    {
      this.watchMode, this.minCyclesToSustain := watchMode, minCyclesToSustain;
      cyclesSustained, claimToWatch, claimNow, claimWas := 0, false, false, false;
      validNow, validWas, firstCycle, timeOfClaimNow := true, true, true, 0;
    }

    function StateNow(): State
      reads this
    {
      State(firstCycle, claimToWatch, cyclesSustained, claimNow)
    }

    method Cycle(timestampNow: int, o: Observation)
      modifies this
      ensures minCyclesToSustain == old(minCyclesToSustain)
      ensures StateNow() == Cycled(watchMode, minCyclesToSustain, old(StateNow()), o)
      ensures claimWas == old(claimNow) && validWas == old(validNow) && validNow == o.valid
      ensures timeOfClaimNow == if validNow && (claimNow != claimWas || validWas != validNow) then timestampNow
                                else old(timeOfClaimNow)
    {
      if firstCycle {
        claimToWatch := if watchMode == TrueXorFalse then o.claim else watchMode == True;
        firstCycle := false;
      }
      validWas := validNow;
      validNow := o.valid;
      claimWas := claimNow;
      if validNow {
        var more := if cyclesSustained + 1 < minCyclesToSustain then cyclesSustained + 1 else minCyclesToSustain;
        cyclesSustained := if claimToWatch == o.claim then more else 0;
        claimNow := cyclesSustained > minCyclesToSustain - 1;
        var claimHasFlipped := claimNow != claimWas;
        if claimHasFlipped && watchMode == TrueXorFalse {
          claimToWatch := o.claim;
        }
        timeOfClaimNow :=
          if claimHasFlipped || validWas != validNow || firstCycle then timestampNow else timeOfClaimNow;
      }
    }
  }
}
