/** The rainfall of one analog value as an object: it logs each new value and brings the
    statistics up to date, by way of the register it shares with every other rainfall. */
module RainAnalogs {
  import opened Nodes
  import opened Walks
  import opened Binning
  import opened Rainfall

  const STATE_INVALID: nat := 0
  const STATE_VALID: nat := 1
  const STATE_UNAVAILABLE: nat := 2
  const VALUE_UNAVAILABLE: Bindex := 127

  datatype SetReply = OkayAllDone | FailAskedStatisticBeyondDepthLimit

  /** The log as the register shows it: one true in each row, none for bin 0. */
  predicate RowShows(register: array2<bool>, row: nat, bindex: Bindex)
    requires row < register.Length0 && register.Length1 == NUM_BINS
    reads register
  {
    forall b :: 0 <= b < NUM_BINS ==> (register[row, b] <==> b == bindex && b != NAN_BINDEX)
  }

  predicate Shows(register: array2<bool>, log: seq<Bindex>)
    requires |log| <= register.Length0 && register.Length1 == NUM_BINS
    reads register
  {
    forall r :: 0 <= r < |log| ==> RowShows(register, r, log[r])
  }

  method FillRow(register: array2<bool>, row: nat, bindex: Bindex)
    requires row < register.Length0 && register.Length1 == NUM_BINS
    modifies register
    ensures RowShows(register, row, bindex)
    ensures forall r, b :: 0 <= r < register.Length0 && 0 <= b < NUM_BINS && r != row ==>
              register[r, b] == old(register[r, b])
  {
    for b := 0 to NUM_BINS
      invariant forall j :: 0 <= j < b ==> !register[row, j]
      invariant forall r, j :: 0 <= r < register.Length0 && 0 <= j < NUM_BINS && r != row ==>
                  register[r, j] == old(register[r, j])
    {
      register[row, b] := false;
    }
    if bindex != NAN_BINDEX {
      register[row, bindex] := true;
    }
  }

  /** The log read into the register's first rows; what is below them stays as it was. */
  method ReadBindexLogIntoRainfall(register: array2<bool>, logToRead: seq<Bindex>)
    requires |logToRead| <= register.Length0 && register.Length1 == NUM_BINS
    modifies register
    ensures Shows(register, logToRead)
    ensures forall r, b :: |logToRead| <= r < register.Length0 && 0 <= b < NUM_BINS ==>
              register[r, b] == old(register[r, b])
  {
    for r := 0 to |logToRead|
      invariant forall q :: 0 <= q < r ==> RowShows(register, q, logToRead[q])
      invariant forall q, b :: r <= q < register.Length0 && 0 <= b < NUM_BINS ==>
                  register[q, b] == old(register[q, b])
    {
      FillRow(register, r, logToRead[r]);
    }
  }

  /** The ones in each column of the register, so many cycles back. */
  method CountBins(register: array2<bool>, ghost log: seq<Bindex>, depth: nat) returns (binSums: BinSums)
    requires depth <= |log| <= register.Length0 && register.Length1 == NUM_BINS && Shows(register, log)
    ensures binSums == Counts(log[..depth])
  {
    binSums := seq(NUM_BINS, _ => 0);
    for cyclesBack := 0 to depth
      invariant binSums == Counts(log[..cyclesBack])
    {
      ghost var before := binSums;
      ghost var bindex := log[cyclesBack];
      assert RowShows(register, cyclesBack, bindex);
      for iBin := 0 to NUM_BINS
        invariant |binSums| == NUM_BINS
        invariant binSums
               == if bindex != NAN_BINDEX && bindex < iBin then before[bindex := before[bindex] + 1] else before
      {
        if register[cyclesBack, iBin] {
          binSums := binSums[iBin := binSums[iBin] + 1];
        }
      }
      assert log[..cyclesBack + 1][..cyclesBack] == log[..cyclesBack];
    }
  }

  class RainAnalog {
    const binParams: BinParams
    const register: array2<bool>
    var xNow: real
    var yNow: real
    var valuesLoggedAsBindex: seq<Bindex>
    var statesLoggedAsBindex: seq<nat>
    var spansInUse: set<nat>
    var yMeansByDepth: map<nat, real>
    var yVariancesByDepth: map<nat, real>
    var binOverUnderSeen: bool
    var firstCycle: bool

    ghost predicate Valid()
      reads this
    {
      && Even(binParams)
      && register.Length0 == REGISTER_ROWS && register.Length1 == NUM_BINS
      && 0 < |valuesLoggedAsBindex| <= REGISTER_ROWS && statesLoggedAsBindex != []
      && forall span :: span in spansInUse ==> 1 <= span <= |valuesLoggedAsBindex|
    }

    constructor (binParams: BinParams, register: array2<bool>, size: nat, movingHourSpanInCycles: nat)
      requires Even(binParams) && register.Length0 == REGISTER_ROWS && register.Length1 == NUM_BINS
      requires 1 <= movingHourSpanInCycles <= size <= REGISTER_ROWS
      ensures Valid() && firstCycle && |valuesLoggedAsBindex| == size && spansInUse == {movingHourSpanInCycles}
    {
      this.binParams, this.register := binParams, register;
      xNow, yNow := 0.0, 0.0;
      valuesLoggedAsBindex := seq(size, _ => VALUE_UNAVAILABLE);
      statesLoggedAsBindex := seq(size, _ => STATE_UNAVAILABLE);
      spansInUse := {movingHourSpanInCycles};
      yMeansByDepth, yVariancesByDepth := map[], map[];
      binOverUnderSeen, firstCycle := false, true;
    }

    /** The value now binned and logged, with whether it was valid. */
    method UpdateLogging(validAtSource: bool)
      requires Valid()
      modifies this`valuesLoggedAsBindex, this`statesLoggedAsBindex, this`binOverUnderSeen, this`firstCycle, this`yNow
      ensures Valid() && !firstCycle && yNow == binParams.labels[Bin(binParams, xNow)]
      ensures valuesLoggedAsBindex == Logged(binParams, old(firstCycle), old(valuesLoggedAsBindex), xNow)
      ensures |statesLoggedAsBindex| == |old(statesLoggedAsBindex)|
      ensures statesLoggedAsBindex[1..] == old(statesLoggedAsBindex)[..|old(statesLoggedAsBindex)| - 1]
      ensures statesLoggedAsBindex[0]
           == if validAtSource && !IsOutside(binParams, xNow) then STATE_VALID else STATE_INVALID
      ensures binOverUnderSeen <==> old(binOverUnderSeen) || IsOutside(binParams, xNow)
    {
      var xScaled := (xNow + binParams.binHalfWidth - binParams.labels[0]) / binParams.binWidth;
      var iDropRaw := xScaled.Floor;
      var binOverUnderNow := iDropRaw < 0 || iDropRaw > NUM_BINS - 1;
      binOverUnderSeen := if binOverUnderNow then true else binOverUnderSeen;
      var bindexOfValueNow: Bindex :=
        if iDropRaw < 0 then 0 else if iDropRaw > NUM_BINS - 1 then NUM_BINS - 1 else iDropRaw;
      var bindexOfStateNow := if validAtSource && !binOverUnderNow then STATE_VALID else STATE_INVALID;
      if firstCycle {
        valuesLoggedAsBindex := seq(|valuesLoggedAsBindex|, _ => bindexOfValueNow);
        firstCycle := false;
      }
      valuesLoggedAsBindex := [bindexOfValueNow] + valuesLoggedAsBindex[..|valuesLoggedAsBindex| - 1];
      statesLoggedAsBindex := [bindexOfStateNow] + statesLoggedAsBindex[..|statesLoggedAsBindex| - 1];
      yNow := binParams.labels[bindexOfValueNow];
    }

    /** Mean and variance down to one depth. */
    method MeanAndVariance(depth: nat) returns (mean: real, variance: real)
      requires Valid() && depth <= |valuesLoggedAsBindex| && Shows(register, valuesLoggedAsBindex)
      ensures mean == MeanOf(binParams, valuesLoggedAsBindex[..depth])
      ensures variance == VarianceOf(binParams, valuesLoggedAsBindex[..depth])
      ensures AreOfLabelsSeen(binParams, valuesLoggedAsBindex[..depth], mean, variance)
    {
      ghost var window := valuesLoggedAsBindex[..depth];
      var binSums := CountBins(register, valuesLoggedAsBindex, depth);
      var sum := if Total(binSums) > 1 then Total(binSums) else 1;
      var fractions := Fractions(binSums, sum);
      BinnedAverageIsDirect(window, binParams.labels, sum);
      mean := InnerProduct(fractions, binParams.labels);
      var residuals := SquaredResiduals(binParams.labels, mean);
      BinnedAverageIsDirect(window, residuals, sum);
      variance := Greater(binParams.minVariance, InnerProduct(fractions, residuals));
      StatisticsAreOfLabelsSeen(binParams, window);
    }

    /** The statistics of every span in use, whatever the register held before. */
    method UpdateStatistics()
      requires Valid()
      modifies this`yMeansByDepth, this`yVariancesByDepth, register
      ensures Valid()
      ensures forall span :: span in spansInUse ==>
                && span - 1 in yMeansByDepth && span - 1 in yVariancesByDepth
                && yMeansByDepth[span - 1] == MeanOf(binParams, valuesLoggedAsBindex[..span - 1])
                && yVariancesByDepth[span - 1] == VarianceOf(binParams, valuesLoggedAsBindex[..span - 1])
                && AreOfLabelsSeen(binParams, valuesLoggedAsBindex[..span - 1],
                                   yMeansByDepth[span - 1], yVariancesByDepth[span - 1])
    {
      ReadBindexLogIntoRainfall(register, valuesLoggedAsBindex);
      var walk := AnyOrder(spansInUse);
      for i := 0 to |walk|
        invariant forall j :: 0 <= j < i ==> IsUpdated(walk[j])
        modifies this`yMeansByDepth, this`yVariancesByDepth
      {
        assert walk[i] in Range(walk);
        var depth := walk[i] - 1;
        var mean, variance := MeanAndVariance(depth);
        yMeansByDepth := yMeansByDepth[depth := mean];
        yVariancesByDepth := yVariancesByDepth[depth := variance];
      }
      forall span | span in spansInUse
        ensures IsUpdated(span)
      {
        assert span in Range(walk);
        var j :| 0 <= j < |walk| && walk[j] == span;
      }
      forall span | span in spansInUse
        ensures AreOfLabelsSeen(binParams, valuesLoggedAsBindex[..span - 1],
                                yMeansByDepth[span - 1], yVariancesByDepth[span - 1])
      {
        assert IsUpdated(span);
        StatisticsAreOfLabelsSeen(binParams, valuesLoggedAsBindex[..span - 1]);
      }
    }

    ghost predicate IsUpdated(span: nat)
      requires Even(binParams)
      reads this
    {
      && 1 <= span <= |valuesLoggedAsBindex|
      && span - 1 in yMeansByDepth && span - 1 in yVariancesByDepth
      && yMeansByDepth[span - 1] == MeanOf(binParams, valuesLoggedAsBindex[..span - 1])
      && yVariancesByDepth[span - 1] == VarianceOf(binParams, valuesLoggedAsBindex[..span - 1])
    }

    /** One more user of statistics over a span, for which the log grows if it must. */
    method AddNewStatisticsUserSpanningCycles(span: nat) returns (reply: SetReply)
      requires Valid()
      modifies this`valuesLoggedAsBindex, this`spansInUse
      ensures Valid()
      ensures reply == if 1 <= span <= REGISTER_ROWS then OkayAllDone else FailAskedStatisticBeyondDepthLimit
      ensures spansInUse == old(spansInUse) + (if reply == OkayAllDone then {span} else {})
      ensures old(valuesLoggedAsBindex) <= valuesLoggedAsBindex
      ensures forall i :: |old(valuesLoggedAsBindex)| <= i < |valuesLoggedAsBindex| ==>
                valuesLoggedAsBindex[i] == old(valuesLoggedAsBindex)[|old(valuesLoggedAsBindex)| - 1]
    {
      if span > REGISTER_ROWS || span < 1 {
        return FailAskedStatisticBeyondDepthLimit;
      }
      var size := |valuesLoggedAsBindex|;
      if span > size {
        var oldest := valuesLoggedAsBindex[size - 1];
        valuesLoggedAsBindex := valuesLoggedAsBindex + seq(span - size, _ => oldest);
      }
      spansInUse := spansInUse + {span};
      return OkayAllDone;
    }
  }
}
