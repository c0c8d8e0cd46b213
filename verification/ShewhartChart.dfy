/** The Shewhart-like chart: it trips on a value too many standard deviations off the mean,
    and calls its input steady again once it has been free of trips for long enough.
    Reals stand for the program's floats. */
module ShewhartChart {

  /** The margin of trip-free cycles wanted; the knob allows 0 to 5. */
  datatype Settings = Settings(zPass: real, tripFreeMargin: int)

  datatype State = State(count: int, steady: bool)

  function SignX(x: real): real {
    if x < 0.0 then -1.0 else 1.0
  }

  function Greater(a: real, b: real): real {
    if a < b then b else a
  }

  function Lesser(a: real, b: real): real {
    if b < a then b else a
  }

  predicate Trips(zNow: real, zPass: real) {
    Greater(0.0, SignX(zNow - zPass)) != 0.0 || Lesser(0.0, SignX(zNow + zPass)) != 0.0
  }

  /** The band passed includes its lower edge but not its upper one; with no width it still
      trips on anything. */
  lemma TripsIff(zNow: real, zPass: real)
    ensures Trips(zNow, zPass) <==> zNow >= zPass || zNow < -zPass
  {
  }

  function Applied(margin: int, s: State, trip: bool): State {
    var count := if trip then (if s.count - 1 > 0 then s.count - 1 else 0)
                 else if s.count + 1 < margin then s.count + 1 else margin;
    var flips := (!trip && !s.steady && count == margin) || (trip && s.steady);
    State(count, if flips then !s.steady else s.steady)
  }

  /** A chart as it starts, and after each reset. */
  function Reset(margin: int): State {
    State(margin, true)
  }

  /** Valid cycles, each with a trip or without. */
  function RunOf(margin: int, trips: seq<bool>): State {
    if trips == [] then Reset(margin) else Applied(margin, RunOf(margin, trips[..|trips| - 1]), trips[|trips| - 1])
  }

  lemma {:induction false} CountOfRun(margin: int, trips: seq<bool>)
    requires margin != 0
    ensures RunOf(margin, trips).steady <==> RunOf(margin, trips).count == margin
    ensures margin > 0 ==> 0 <= RunOf(margin, trips).count <= margin
  {
    if trips != [] {
      CountOfRun(margin, trips[..|trips| - 1]);
    }
  }

  lemma {:induction false} CountAtZero(trips: seq<bool>)
    ensures RunOf(0, trips).count == 0
  {
    if trips != [] {
      CountAtZero(trips[..|trips| - 1]);
    }
  }

  lemma {:induction false} QuietCounts(margin: nat, trips: seq<bool>, quiet: nat)
    requires margin > 0 && quiet <= margin && quiet <= |trips|
    requires forall i :: |trips| - quiet <= i < |trips| ==> !trips[i]
    ensures RunOf(margin, trips).count >= quiet
  {
    CountOfRun(margin, trips);
    if quiet > 0 {
      var front := trips[..|trips| - 1];
      QuietCounts(margin, front, quiet - 1);
      CountOfRun(margin, front);
    }
  }

  // ----- The chart fed by values -----

  datatype Input = Input(xNow: real, xMean: real, xStdDev: real)

  /** All there is to the chart between valid cycles. */
  datatype Chart = Chart(state: State, stdDevRefNew: real, running: bool, resetPending: bool)

  /** What the score of the next value refers to. */
  function RefFor(c: Chart, i: Input): real {
    if c.running then c.stdDevRefNew else i.xStdDev
  }

  predicate TripsOn(s: Settings, c: Chart, i: Input)
    requires RefFor(c, i) != 0.0
  {
    Trips((i.xNow - i.xMean) / RefFor(c, i), s.zPass)
  }

  function Cycled(s: Settings, c: Chart, i: Input): Chart
    requires RefFor(c, i) != 0.0
  {
    var before := if c.resetPending then Reset(s.tripFreeMargin) else c.state;
    var after := Applied(s.tripFreeMargin, before, TripsOn(s, c, i));
    Chart(after, if after.steady then i.xStdDev else RefFor(c, i), true, false)
  }

  ghost predicate Positive(inputs: seq<Input>) {
    forall k :: 0 <= k < |inputs| ==> inputs[k].xStdDev > 0.0
  }

  const STARTING := Chart(State(0, false), 0.0, false, true)

  ghost function ChartAfter(s: Settings, inputs: seq<Input>): (c: Chart)
    requires Positive(inputs)
    ensures inputs == [] ==> c == STARTING
    ensures inputs != [] ==> c.running && !c.resetPending && c.stdDevRefNew > 0.0
  {
    if inputs == [] then STARTING
    else Cycled(s, ChartAfter(s, inputs[..|inputs| - 1]), inputs[|inputs| - 1])
  }

  /** Which of the values the chart trips on. */
  ghost function TripsIn(s: Settings, inputs: seq<Input>): (trips: seq<bool>)
    requires Positive(inputs)
    ensures |trips| == |inputs|
  {
    if inputs == [] then []
    else
      var front, last := inputs[..|inputs| - 1], inputs[|inputs| - 1];
      TripsIn(s, front) + [TripsOn(s, ChartAfter(s, front), last)]
  }

  /** A chart fed by values is a run of trips and of cycles without. */
  lemma {:induction false} ChartIsARun(s: Settings, inputs: seq<Input>)
    requires Positive(inputs) && inputs != []
    ensures ChartAfter(s, inputs).state == RunOf(s.tripFreeMargin, TripsIn(s, inputs))
  {
    var front := inputs[..|inputs| - 1];
    assert TripsIn(s, inputs)[..|front|] == TripsIn(s, front);
    if front != [] {
      ChartIsARun(s, front);
    }
  }

  // ----- Steady means free of trips to the margin -----

  ghost predicate SteadyAtMargin(s: Settings) {
    forall inputs {:trigger Positive(inputs)} :: Positive(inputs) && inputs != [] ==>
      (ChartAfter(s, inputs).state.steady <==> ChartAfter(s, inputs).state.count == s.tripFreeMargin)
  }

  lemma SteadyAtMarginUnlessZero(s: Settings, inputs: seq<Input>)
    requires s.tripFreeMargin != 0 && Positive(inputs) && inputs != []
    ensures ChartAfter(s, inputs).state.steady <==> ChartAfter(s, inputs).state.count == s.tripFreeMargin
    ensures s.tripFreeMargin > 0 ==> 0 <= ChartAfter(s, inputs).state.count <= s.tripFreeMargin
  {
    ChartIsARun(s, inputs);
    CountOfRun(s.tripFreeMargin, TripsIn(s, inputs));
  }

  /** A value at the pass limit, met first, trips the chart. */
  lemma LimitTrips(s: Settings) returns (inputs: seq<Input>)
    ensures Positive(inputs) && |inputs| == 1
    ensures ChartAfter(s, inputs).state == Applied(s.tripFreeMargin, Reset(s.tripFreeMargin), true)
  {
    var i := Input(s.zPass, 0.0, 1.0);
    inputs := [i];
    assert inputs[..0] == [] && ChartAfter(s, []) == STARTING;
    assert (i.xNow - i.xMean) / RefFor(STARTING, i) == s.zPass;
    TripsIff(s.zPass, s.zPass);
  }

  /** Whatever values it is fed, the chart is steady exactly when its count is at the margin,
      if and only if the margin is not the zero its knob allows: then one trip leaves it
      unsteady. */
  lemma SteadyAtMarginIff(s: Settings)
    ensures SteadyAtMargin(s) <==> s.tripFreeMargin != 0
  {
    if s.tripFreeMargin == 0 {
      var inputs := LimitTrips(s);
    } else {
      forall inputs: seq<Input> | Positive(inputs) && inputs != []
        ensures ChartAfter(s, inputs).state.steady <==> ChartAfter(s, inputs).state.count == s.tripFreeMargin
      {
        SteadyAtMarginUnlessZero(s, inputs);
      }
    }
  }

  /** So many trips and then so many cycles without take the count down and up again, between zero
      and the margin. */
  lemma {:induction false} TripsThenQuiet(margin: nat, trips: seq<bool>, down: nat, up: nat)
    requires margin > 0
    ensures var before, after := RunOf(margin, trips).count,
                                 RunOf(margin, trips + seq(down, _ => true) + seq(up, _ => false)).count;
            var low := if before > down then before - down else 0;
            after == if low + up < margin then low + up else margin
    decreases down + up
  {
    var t, u := seq(down, _ => true), seq(up, _ => false);
    CountOfRun(margin, trips);
    if up > 0 {
      var run := trips + t + u;
      TripsThenQuiet(margin, trips, down, up - 1);
      assert run[..|run| - 1] == trips + t + seq(up - 1, _ => false);
      assert !run[|run| - 1];
    } else if down > 0 {
      var run := trips + t + u;
      TripsThenQuiet(margin, trips, down - 1, 0);
      assert run[..|run| - 1] == trips + seq(down - 1, _ => true) + seq(0, _ => false);
      assert run[|run| - 1];
    } else {
      assert trips + t + u == trips;
    }
  }

  lemma QuotientAtLeastIff(x: real, ref: real, z: real)
    requires ref > 0.0
    ensures x / ref >= z <==> x >= z * ref
    ensures x / ref < -z <==> x < -(z * ref)
  {
    var q := x / ref;
    assert q * ref == x;
    MulInOrderIff(q, z, ref);
    MulInOrderIff(q, -z, ref);
    assert (-z) * ref == -(z * ref);
  }

  lemma MulInOrderIff(a: real, b: real, m: real)
    requires m > 0.0
    ensures a >= b <==> a * m >= b * m
  {
    var gap := a - b;
    assert gap * m == a * m - b * m;
    assert gap >= 0.0 ==> gap * m >= 0.0;
    assert gap < 0.0 ==> (-gap) * m > 0.0;
    assert (-gap) * m == -(gap * m);
  }

  /** The chart trips on a value so many standard deviations above its mean, or more than so many
      below it; the deviation is the one it refers to. */
  lemma TripsOnMeans(s: Settings, c: Chart, i: Input)
    requires RefFor(c, i) > 0.0
    ensures TripsOn(s, c, i) <==>
              i.xNow - i.xMean >= s.zPass * RefFor(c, i) || i.xNow - i.xMean < -(s.zPass * RefFor(c, i))
    ensures RefFor(c, i) == if c.running then c.stdDevRefNew else i.xStdDev
  {
    TripsIff((i.xNow - i.xMean) / RefFor(c, i), s.zPass);
    QuotientAtLeastIff(i.xNow - i.xMean, RefFor(c, i), s.zPass);
  }

  // ----- From steady to unsteady -----

  /** The chart is meant to turn unsteady only when its count has come down to zero.  It does
      so at the first trip, whatever the count: as meant exactly for a margin of one or none. */
  lemma TurnsUnsteadyAtFirstTrip(s: Settings, inputs: seq<Input>, i: Input)
    requires Positive(inputs) && inputs != [] && i.xStdDev > 0.0 && s.tripFreeMargin >= 0
    requires ChartAfter(s, inputs).state.steady && TripsOn(s, ChartAfter(s, inputs), i)
    ensures var t := ChartAfter(s, inputs + [i]).state; !t.steady && (t.count == 0 <==> s.tripFreeMargin <= 1)
  {
    assert (inputs + [i])[..|inputs|] == inputs;
    if s.tripFreeMargin > 0 {
      SteadyAtMarginUnlessZero(s, inputs);
    } else {
      ChartIsARun(s, inputs);
      CountAtZero(TripsIn(s, inputs));
    }
  }

  /** After any history, as many cycles without a trip as the margin leave the chart steady. */
  lemma QuietLongEnoughIsSteady(s: Settings, inputs: seq<Input>)
    requires Positive(inputs) && 0 < s.tripFreeMargin <= |inputs|
    requires forall k :: |inputs| - s.tripFreeMargin <= k < |inputs| ==> !TripsIn(s, inputs)[k]
    ensures ChartAfter(s, inputs).state.steady
  {
    QuietCounts(s.tripFreeMargin, TripsIn(s, inputs), s.tripFreeMargin);
    SteadyAtMarginUnlessZero(s, inputs);
    ChartIsARun(s, inputs);
  }

  // ----- The standard deviation the score refers to -----

  /** The last cycle of a run after which the chart was steady, or -1 if none was. */
  ghost function LastSteady(s: Settings, inputs: seq<Input>): (k: int)
    requires Positive(inputs)
    ensures -1 <= k < |inputs|
  {
    if inputs == [] then -1
    else if ChartAfter(s, inputs).state.steady then |inputs| - 1
    else LastSteady(s, inputs[..|inputs| - 1])
  }

  /** While its input is not steady, the chart goes on scoring it by the standard deviation it
      had when it last was - or had at first, if it has never been. */
  lemma {:induction false} ScoresByLastSteadyDeviation(s: Settings, inputs: seq<Input>)
    requires Positive(inputs) && inputs != []
    ensures ChartAfter(s, inputs).stdDevRefNew
         == (if LastSteady(s, inputs) >= 0 then inputs[LastSteady(s, inputs)].xStdDev else inputs[0].xStdDev)
  {
    var front := inputs[..|inputs| - 1];
    if front != [] {
      ScoresByLastSteadyDeviation(s, front);
    }
  }

  class ShewhartChart {
    var settings: Settings
    var tripFreeCount: int
    var isSteadyNow: bool
    var wasSteadyOnLastValid: bool
    var stdDevRef: real
    var stdDevRefNew: real
    var zNow: real
    var chartRunning: bool
    var resetPending: bool

    constructor (settings: Settings)
      ensures this.settings == settings && ChartNow() == STARTING
    {
      this.settings := settings;
      tripFreeCount := 0;
      isSteadyNow, wasSteadyOnLastValid := false, false;
      stdDevRef, stdDevRefNew, zNow := 0.0, 0.0, 0.0;
      chartRunning, resetPending := false, true;
    }

    function ChartNow(): Chart
      reads this
    {
      Chart(State(tripFreeCount, wasSteadyOnLastValid), stdDevRefNew, chartRunning, resetPending)
    }

    method ApplyChart(i: Input)
      requires stdDevRefNew != 0.0
      modifies this`stdDevRef, this`stdDevRefNew, this`zNow, this`tripFreeCount, this`isSteadyNow
      ensures stdDevRef == old(stdDevRefNew) && zNow == (i.xNow - i.xMean) / stdDevRef
      ensures State(tripFreeCount, isSteadyNow)
           == Applied(settings.tripFreeMargin, old(State(tripFreeCount, wasSteadyOnLastValid)),
                      Trips(zNow, settings.zPass))
      ensures stdDevRefNew == if isSteadyNow then i.xStdDev else stdDevRef
    {
      stdDevRef := stdDevRefNew;
      zNow := (i.xNow - i.xMean) / stdDevRef;
      var abovePassband := Greater(0.0, SignX(zNow - settings.zPass)) != 0.0;
      var belowPassband := Lesser(0.0, SignX(zNow + settings.zPass)) != 0.0;
      var chartTrip := abovePassband || belowPassband;
      var up := if tripFreeCount + 1 < settings.tripFreeMargin then tripFreeCount + 1 else settings.tripFreeMargin;
      var down := if tripFreeCount - 1 > 0 then tripFreeCount - 1 else 0;
      tripFreeCount := if chartTrip then down else up;
      var flipState := (!chartTrip && !wasSteadyOnLastValid && tripFreeCount == settings.tripFreeMargin)
                       || (chartTrip && wasSteadyOnLastValid);
      isSteadyNow := if flipState then !wasSteadyOnLastValid else wasSteadyOnLastValid;
      stdDevRefNew := if isSteadyNow then i.xStdDev else stdDevRef;
    }

    /** One step in time.  An invalid one holds the last valid result and changes nothing. */
    method Cycle(validNow: bool, i: Input)
      requires validNow ==> (if chartRunning then stdDevRefNew else i.xStdDev) != 0.0
      modifies this
      ensures settings == old(settings)
      ensures ChartNow() == if validNow then Cycled(settings, old(ChartNow()), i) else old(ChartNow())
      ensures isSteadyNow == ChartNow().state.steady
    {
      isSteadyNow := if validNow then isSteadyNow else wasSteadyOnLastValid;
      if validNow {
        if resetPending {
          isSteadyNow := true;
          wasSteadyOnLastValid := true;
          tripFreeCount := settings.tripFreeMargin;
          resetPending := false;
        }
        if !chartRunning {
          stdDevRefNew := i.xStdDev;
          chartRunning := true;
        }
        ApplyChart(i);
        wasSteadyOnLastValid := isSteadyNow;
      }
    }
  }
}
