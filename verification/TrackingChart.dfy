/** The tracking chart: two registers accumulate how far, and for how long, an observed
    value has been above or below a band around its guide, and saturate at a warning level.
    Reals stand for the program's floats. */
module TrackingChart {

  /** What the user has set on the chart. */
  datatype Settings = Settings(warn: real, halfBand: real, staleFrac: real, lagFrac: real,
                               secsPerCycle: nat, appsBtwnResets: int)

  /** The knobs' ranges, and zero staleness besides. */
  predicate Allowed(s: Settings) {
    s.warn >= 0.0 && s.halfBand >= 0.0 && 0.0 <= s.staleFrac <= 1.0 && 0.0 <= s.lagFrac <= 1.0 && s.secsPerCycle > 0
  }

  datatype Registers = Registers(p: real, n: real, apps: int)

  datatype Input = Input(obsvd: real, guide: real)

  function Min(a: real, b: real): real {
    if b < a then b else a
  }

  function Max(a: real, b: real): real {
    if a < b then b else a
  }

  function Minutes(s: Settings): real {
    s.secsPerCycle as real / 60.0
  }

  function AreaPastTop(s: Settings, i: Input): real {
    (i.obsvd - (i.guide + s.halfBand)) * Minutes(s)
  }

  function AreaPastBottom(s: Settings, i: Input): real {
    (i.obsvd - (i.guide - s.halfBand)) * Minutes(s)
  }

  predicate Resets(s: Settings, r: Registers) {
    r.apps + 1 > s.appsBtwnResets
  }

  /** What a register gains: the area past its side of the band, or its staleness off it. */
  function Gain(register: real, area: real, counts: bool, staleFrac: real): real {
    if counts then area else -(register * staleFrac)
  }

  function Saturated(warn: real, r: Registers, gainP: real, gainN: real): Registers {
    Registers(Max(0.0, Min(r.p + gainP, warn)), Min(0.0, Max(r.n + gainN, -warn)), r.apps)
  }

  function Accumulated(s: Settings, r: Registers, top: real, bottom: real): Registers {
    Saturated(s.warn, r, Gain(r.p, top, top > 0.0, s.staleFrac), Gain(r.n, bottom, bottom < 0.0, s.staleFrac))
  }

  function Counted(s: Settings, r: Registers): Registers {
    if Resets(s, r) then FRESH else r.(apps := r.apps + 1)
  }

  function Applied(s: Settings, r: Registers, i: Input): Registers {
    Accumulated(s, Counted(s, r), AreaPastTop(s, i), AreaPastBottom(s, i))
  }

  predicate IsRising(s: Settings, r: Registers) {
    r.p == s.warn && !(r.n < -(s.lagFrac * s.warn))
  }

  predicate IsFalling(s: Settings, r: Registers) {
    r.n == -s.warn && !(r.p > s.lagFrac * s.warn)
  }

  predicate IsHunting(s: Settings, r: Registers) {
    r.p == s.warn && r.n == -s.warn
  }

  predicate AtMostOne(s: Settings, r: Registers) {
    && !(IsRising(s, r) && IsFalling(s, r)) && !(IsRising(s, r) && IsHunting(s, r))
    && !(IsFalling(s, r) && IsHunting(s, r))
  }

  const FRESH := Registers(0.0, 0.0, 0)

  /** The registers after a run of applications to a fresh chart. */
  function RunOf(s: Settings, inputs: seq<Input>): Registers {
    if inputs == [] then FRESH else Applied(s, RunOf(s, inputs[..|inputs| - 1]), inputs[|inputs| - 1])
  }

  // ----- Bounds -----

  predicate Bounded(s: Settings, r: Registers) {
    0.0 <= r.p <= s.warn && -s.warn <= r.n <= 0.0
  }

  lemma {:induction false} EveryRunIsBounded(s: Settings, inputs: seq<Input>)
    requires Allowed(s)
    ensures Bounded(s, RunOf(s, inputs)) && RunOf(s, inputs).apps >= 0
  {
    if inputs != [] {
      EveryRunIsBounded(s, inputs[..|inputs| - 1]);
    }
  }

  // ----- Which warnings can be given together -----

  lemma StaleLess(r: real, warn: real, f: real)
    requires 0.0 <= r <= warn && warn > 0.0 && 0.0 < f <= 1.0
    ensures 0.0 <= r - r * f < warn
  {
    assert r * f >= 0.0;
    assert r * (1.0 - f) == r - r * f;
    if r == warn {
      assert warn * f > 0.0;
    }
  }

  lemma MulInOrder(a: real, b: real, m: real)
    requires a <= b && m >= 0.0
    ensures a * m <= b * m
  {
    var gap := b - a;
    assert gap * m >= 0.0;
    assert (a + gap) * m == a * m + gap * m;
  }

  lemma AreasInOrder(s: Settings, i: Input)
    requires Allowed(s)
    ensures AreaPastTop(s, i) <= AreaPastBottom(s, i)
  {
    MulInOrder(i.obsvd - (i.guide + s.halfBand), i.obsvd - (i.guide - s.halfBand), Minutes(s));
  }

  /** A register that staled, or has just been reset, is short of saturation; and one of
      the two always has been. */
  lemma NeverBothSaturated(s: Settings, r: Registers, i: Input)
    requires Allowed(s) && s.warn > 0.0 && Bounded(s, r) && (s.staleFrac > 0.0 || Resets(s, r))
    ensures !IsHunting(s, Applied(s, r, i))
  {
    AreasInOrder(s, i);
    if Resets(s, r) {
      assert 0.0 * s.staleFrac == 0.0;
    } else {
      StaleLess(r.p, s.warn, s.staleFrac);
      StaleLess(-r.n, s.warn, s.staleFrac);
      assert (-r.n) * s.staleFrac == -(r.n * s.staleFrac);
    }
  }

  /** A saturating swing up and then down. */
  function Swing(s: Settings): seq<Input> {
    var reach := s.halfBand + s.warn * 60.0;
    [Input(reach, 0.0)] + [Input(-reach, 0.0)]
  }

  lemma Reach(s: Settings)
    requires Allowed(s)
    ensures (s.warn * 60.0) * Minutes(s) >= s.warn
  {
    var m := s.secsPerCycle as real;
    assert (s.warn * 60.0) * (m / 60.0) == s.warn * m;
    assert s.warn * m - s.warn == s.warn * (m - 1.0);
    assert s.warn * (m - 1.0) >= 0.0;
  }

  lemma SwingAreas(s: Settings)
    requires Allowed(s) && s.warn > 0.0
    ensures AreaPastTop(s, Swing(s)[0]) >= s.warn && AreaPastBottom(s, Swing(s)[1]) <= -s.warn
    ensures AreaPastBottom(s, Swing(s)[0]) > 0.0 && AreaPastTop(s, Swing(s)[1]) < 0.0
  {
    var reach, m := s.halfBand + s.warn * 60.0, Minutes(s);
    Reach(s);
    assert Swing(s)[0] == Input(reach, 0.0) && Swing(s)[1] == Input(-reach, 0.0);
    assert AreaPastTop(s, Swing(s)[0]) == (s.warn * 60.0) * m;
    assert AreaPastBottom(s, Swing(s)[1]) == (-(s.warn * 60.0)) * m;
    assert (-(s.warn * 60.0)) * m == -((s.warn * 60.0) * m);
    AreasInOrder(s, Swing(s)[0]);
    AreasInOrder(s, Swing(s)[1]);
  }

  /** Without staleness, or a reset on the way down, the swing saturates both registers. */
  lemma SwingSaturates(s: Settings, r: Registers)
    requires Allowed(s) && s.warn > 0.0 && s.staleFrac == 0.0 && Bounded(s, r)
    requires !Resets(s, Applied(s, r, Swing(s)[0]))
    ensures IsHunting(s, Applied(s, Applied(s, r, Swing(s)[0]), Swing(s)[1]))
  {
    SwingAreas(s);
    var up := Applied(s, r, Swing(s)[0]);
    assert up.p == s.warn && Bounded(s, up);
  }

  ghost predicate CanHunt(s: Settings) {
    exists inputs :: inputs != [] && IsHunting(s, RunOf(s, inputs))
  }

  /** Some run of a chart without staleness ends with both registers saturated. */
  lemma SomeRunHunts(s: Settings) returns (inputs: seq<Input>)
    requires Allowed(s) && s.warn > 0.0 && s.staleFrac == 0.0 && s.appsBtwnResets >= 1
    ensures inputs != [] && IsHunting(s, RunOf(s, inputs))
  {
    // With a reset on every other application, the swing starts with the one that resets.
    var lead: seq<Input> := if s.appsBtwnResets == 1 then [Swing(s)[0]] else [];
    inputs := lead + [Swing(s)[0]] + [Swing(s)[1]];
    var up := lead + [Swing(s)[0]];
    assert inputs[..|up|] == up && up[..|lead|] == lead;
    if lead != [] {
      assert lead[..0] == [];
    }
    EveryRunIsBounded(s, lead);
    SwingSaturates(s, RunOf(s, lead));
  }

  /** A chart can give its warning of hunting exactly when its warning level is zero, or its
      registers never go stale and are not reset each time.  No staleness knob goes below a
      fifth, so a chart with any warning level to speak of never gives it. */
  lemma HuntsOnlyIf(s: Settings)
    requires Allowed(s)
    ensures CanHunt(s) <==> s.warn == 0.0 || (s.staleFrac == 0.0 && s.appsBtwnResets >= 1)
  {
    if s.warn == 0.0 {
      var one := [Input(0.0, 0.0)];
      EveryRunIsBounded(s, one);
      assert one != [] && IsHunting(s, RunOf(s, one));
    } else if s.staleFrac == 0.0 && s.appsBtwnResets >= 1 {
      var inputs := SomeRunHunts(s);
    } else {
      forall inputs: seq<Input> | inputs != []
        ensures !IsHunting(s, RunOf(s, inputs))
      {
        var front := inputs[..|inputs| - 1];
        EveryRunIsBounded(s, front);
        NeverBothSaturated(s, RunOf(s, front), inputs[|inputs| - 1]);
      }
    }
  }

  ghost predicate AlwaysAtMostOne(s: Settings) {
    forall inputs {:trigger RunOf(s, inputs)} :: inputs != [] ==> AtMostOne(s, RunOf(s, inputs))
  }

  lemma LagMatters(warn: real, lag: real)
    requires warn > 0.0
    ensures lag < 1.0 <==> lag * warn < warn
  {
    assert warn - lag * warn == (1.0 - lag) * warn;
  }

  /** Rising, falling and hunting exclude one another over every run exactly when there is a
      warning level and, if the registers neither go stale nor are reset each time, the lag
      fraction is below one. */
  lemma WarningsExcludeOneAnotherIff(s: Settings)
    requires Allowed(s)
    ensures AlwaysAtMostOne(s) <==> s.warn > 0.0 && (s.staleFrac > 0.0 || s.appsBtwnResets < 1 || s.lagFrac < 1.0)
  {
    HuntsOnlyIf(s);
    if s.warn == 0.0 {
      var one := [Input(0.0, 0.0)];
      EveryRunIsBounded(s, one);
      assert s.lagFrac * s.warn == 0.0;
      assert !AtMostOne(s, RunOf(s, one));
    } else {
      LagMatters(s.warn, s.lagFrac);
      if s.staleFrac == 0.0 && s.appsBtwnResets >= 1 && s.lagFrac >= 1.0 {
        var inputs := SomeRunHunts(s);
        assert !AtMostOne(s, RunOf(s, inputs));
      }
    }
  }

  // ----- A lasting excursion is warned of -----

  /** Areas past the top of the band of at least `d`, without a reset coming in between. */
  ghost predicate AreasLast(s: Settings, r: Registers, inputs: seq<Input>, d: real) {
    && r.apps + |inputs| <= s.appsBtwnResets
    && forall k :: 0 <= k < |inputs| ==> AreaPastTop(s, inputs[k]) >= d
  }

  function AppliedAll(s: Settings, r: Registers, inputs: seq<Input>): Registers {
    if inputs == [] then r else Applied(s, AppliedAll(s, r, inputs[..|inputs| - 1]), inputs[|inputs| - 1])
  }

  lemma ExcursionStep(s: Settings, r: Registers, i: Input, d: real, held: real)
    requires Allowed(s) && Bounded(s, r) && d > 0.0 && AreaPastTop(s, i) >= d && !Resets(s, r)
    requires r.p >= Min(s.warn, held) && held >= 0.0
    ensures var e := Applied(s, r, i); Bounded(s, e) && e.apps == r.apps + 1 && e.p >= Min(s.warn, held + d)
  {
  }

  function Times(n: nat, d: real): real {
    if n == 0 then 0.0 else Times(n - 1, d) + d
  }

  lemma {:induction false} TimesIsProduct(n: nat, d: real)
    requires d > 0.0
    ensures Times(n, d) == (n as real) * d && Times(n, d) >= 0.0
  {
    if n > 0 {
      TimesIsProduct(n - 1, d);
      assert (n as real) * d == ((n - 1) as real) * d + d;
    } else {
      assert (0 as real) * d == 0.0;
    }
  }

  lemma {:induction false} ExcursionAddsUp(s: Settings, r: Registers, inputs: seq<Input>, d: real)
    requires Allowed(s) && Bounded(s, r) && d > 0.0 && AreasLast(s, r, inputs, d)
    ensures var e := AppliedAll(s, r, inputs);
            && Bounded(s, e) && e.apps == r.apps + |inputs|
            && e.p >= Min(s.warn, Times(|inputs|, d)) && Times(|inputs|, d) >= 0.0
  {
    if inputs != [] {
      var n := |inputs| - 1;
      ExcursionAddsUp(s, r, inputs[..n], d);
      ExcursionStep(s, AppliedAll(s, r, inputs[..n]), inputs[n], d, Times(n, d));
    }
  }

  /** A register raised by `d` at each of `n` applications, but not past the warning level. */
  ghost predicate Raised(p: real, warn: real, n: nat, d: real) {
    p >= Min(warn, n as real * d) && (n as real * d >= warn ==> p == warn)
  }

  lemma RaisedByTimes(p: real, warn: real, n: nat, d: real)
    requires d > 0.0 && Min(warn, Times(n, d)) <= p <= warn
    ensures Raised(p, warn, n, d)
  {
    TimesIsProduct(n, d);
  }

  /** Values past the top of the band for so long that the distance times the minutes of a cycle is at
      least `d` in each, without a reset coming in between. */
  ghost predicate Lasting(s: Settings, r: Registers, inputs: seq<Input>, d: real) {
    && r.apps + |inputs| <= s.appsBtwnResets
    && forall k :: 0 <= k < |inputs| ==>
         (inputs[k].obsvd - (inputs[k].guide + s.halfBand)) * (s.secsPerCycle as real / 60.0) >= d
  }

  lemma AreasOfLasting(s: Settings, r: Registers, inputs: seq<Input>, d: real)
    requires Lasting(s, r, inputs, d)
    ensures AreasLast(s, r, inputs, d)
  {
  }

  /** The register gains at least `d` with each application, until it saturates: enough
      of them, and the chart has it at the warning level. */
  lemma LastingExcursion(s: Settings, r: Registers, inputs: seq<Input>, d: real)
    requires Allowed(s) && Bounded(s, r) && d > 0.0 && Lasting(s, r, inputs, d)
    ensures Raised(AppliedAll(s, r, inputs).p, s.warn, |inputs|, d)
  {
    AreasOfLasting(s, r, inputs, d);
    ExcursionAddsUp(s, r, inputs, d);
    RaisedByTimes(AppliedAll(s, r, inputs).p, s.warn, |inputs|, d);
  }

  /** Areas past the bottom of the band of at least `d`, without a reset coming in between. */
  ghost predicate AreasLastBelow(s: Settings, r: Registers, inputs: seq<Input>, d: real) {
    && r.apps + |inputs| <= s.appsBtwnResets
    && forall k :: 0 <= k < |inputs| ==> AreaPastBottom(s, inputs[k]) <= -d
  }

  lemma ExcursionStepBelow(s: Settings, r: Registers, i: Input, d: real, held: real)
    requires Allowed(s) && Bounded(s, r) && d > 0.0 && AreaPastBottom(s, i) <= -d && !Resets(s, r)
    requires r.n <= Max(-s.warn, -held) && held >= 0.0
    ensures var e := Applied(s, r, i); Bounded(s, e) && e.apps == r.apps + 1 && e.n <= Max(-s.warn, -(held + d))
  {
  }

  lemma {:induction false} ExcursionAddsUpBelow(s: Settings, r: Registers, inputs: seq<Input>, d: real)
    requires Allowed(s) && Bounded(s, r) && d > 0.0 && AreasLastBelow(s, r, inputs, d)
    ensures var e := AppliedAll(s, r, inputs);
            && Bounded(s, e) && e.apps == r.apps + |inputs|
            && e.n <= Max(-s.warn, -Times(|inputs|, d)) && Times(|inputs|, d) >= 0.0
  {
    if inputs != [] {
      var n := |inputs| - 1;
      ExcursionAddsUpBelow(s, r, inputs[..n], d);
      ExcursionStepBelow(s, AppliedAll(s, r, inputs[..n]), inputs[n], d, Times(n, d));
    }
  }

  /** A register lowered by `d` at each of `n` applications, but not past the warning level. */
  ghost predicate Lowered(register: real, warn: real, n: nat, d: real) {
    register <= Max(-warn, -(n as real * d)) && (n as real * d >= warn ==> register == -warn)
  }

  lemma LoweredByTimes(register: real, warn: real, n: nat, d: real)
    requires d > 0.0 && -warn <= register <= Max(-warn, -Times(n, d))
    ensures Lowered(register, warn, n, d)
  {
    TimesIsProduct(n, d);
  }

  ghost predicate LastingBelow(s: Settings, r: Registers, inputs: seq<Input>, d: real) {
    && r.apps + |inputs| <= s.appsBtwnResets
    && forall k :: 0 <= k < |inputs| ==>
         (inputs[k].obsvd - (inputs[k].guide - s.halfBand)) * (s.secsPerCycle as real / 60.0) <= -d
  }

  lemma AreasBelowOfLasting(s: Settings, r: Registers, inputs: seq<Input>, d: real)
    requires LastingBelow(s, r, inputs, d)
    ensures AreasLastBelow(s, r, inputs, d)
  {
  }

  /** The same of the other register, past the bottom of the band. */
  lemma LastingExcursionBelow(s: Settings, r: Registers, inputs: seq<Input>, d: real)
    requires Allowed(s) && Bounded(s, r) && d > 0.0 && LastingBelow(s, r, inputs, d)
    ensures Lowered(AppliedAll(s, r, inputs).n, s.warn, |inputs|, d)
  {
    AreasBelowOfLasting(s, r, inputs, d);
    ExcursionAddsUpBelow(s, r, inputs, d);
    LoweredByTimes(AppliedAll(s, r, inputs).n, s.warn, |inputs|, d);
  }

  // ----- What the band is for -----

  /** How far the value is past an edge of the band, times the minutes of a cycle, is what a register
      gains; short of the edge it loses its stale fraction.  Nothing takes it past the warning level. */
  predicate GainsOrStales(after: real, before: real, past: real, s: Settings) {
    if past > 0.0 then
      var gained := before + past * s.secsPerCycle as real / 60.0;
      after == if gained > s.warn then s.warn else gained
    else after == before - before * s.staleFrac
  }

  lemma SignOfProduct(a: real, m: real)
    requires m > 0.0
    ensures a > 0.0 <==> a * m > 0.0
  {
    if a > 0.0 {
      assert a * m > 0.0;
    } else {
      assert (-a) * m >= 0.0;
      assert (-a) * m == -(a * m);
    }
  }

  lemma Over60(past: real, m: real)
    ensures past * m / 60.0 == past * (m / 60.0)
  {
  }

  lemma OneSide(s: Settings, after: real, before: real, past: real, area: real)
    requires Allowed(s) && 0.0 <= before <= s.warn && area == past * Minutes(s)
    requires after == Max(0.0, Min(before + Gain(before, area, area > 0.0, s.staleFrac), s.warn))
    ensures GainsOrStales(after, before, past, s)
  {
    SignOfProduct(past, Minutes(s));
    Over60(past, s.secsPerCycle as real);
    StaleWithin(before, s.warn, s.staleFrac);
  }

  lemma StaleWithin(r: real, warn: real, f: real)
    requires 0.0 <= r <= warn && 0.0 <= f <= 1.0
    ensures 0.0 <= r - r * f <= warn
  {
    assert r * f >= 0.0;
    assert r * (1.0 - f) == r - r * f && r * (1.0 - f) >= 0.0;
  }

  lemma NegatedProduct(a: real, m: real)
    ensures (-a) * m == -(a * m)
  {
  }

  /** The falling register is the rising one of the value and its guide turned about. */
  lemma OtherSide(s: Settings, after: real, before: real, past: real, area: real)
    requires Allowed(s) && -s.warn <= before <= 0.0 && area == past * Minutes(s)
    requires after == Min(0.0, Max(before + Gain(before, area, area < 0.0, s.staleFrac), -s.warn))
    ensures GainsOrStales(-after, -before, -past, s)
  {
    NegatedProduct(past, Minutes(s));
    NegatedProduct(before, s.staleFrac);
    OneSide(s, -after, -before, -past, -area);
  }

  predicate IsWithinBand(s: Settings, i: Input) {
    i.guide - s.halfBand <= i.obsvd <= i.guide + s.halfBand
  }

  /** One application, from the value, its guide and the settings alone; when as many applications as
      are to come between resets have been made, both registers start from zero again. */
  predicate MovesBy(s: Settings, r: Registers, i: Input, e: Registers) {
    var starts := r.apps >= s.appsBtwnResets;
    && e.apps == (if starts then 0 else r.apps + 1)
    && GainsOrStales(e.p, if starts then 0.0 else r.p, i.obsvd - (i.guide + s.halfBand), s)
    && GainsOrStales(-e.n, if starts then 0.0 else -r.n, (i.guide - s.halfBand) - i.obsvd, s)
  }

  lemma OneApplication(s: Settings, r: Registers, i: Input)
    requires Allowed(s) && Bounded(s, r)
    ensures MovesBy(s, r, i, Applied(s, r, i))
  {
    var e, c := Applied(s, r, i), Counted(s, r);
    OneSide(s, e.p, c.p, i.obsvd - (i.guide + s.halfBand), AreaPastTop(s, i));
    OtherSide(s, e.n, c.n, i.obsvd - (i.guide - s.halfBand), AreaPastBottom(s, i));
  }

  lemma NextModulo(n: nat, m: nat)
    requires m > 0
    ensures (n + 1) % m == if n % m + 1 == m then 0 else n % m + 1
  {
    var q, r := n / m, n % m;
    assert n == m * q + r;
    if r + 1 == m {
      assert n + 1 == m * (q + 1) + 0;
      ModuloOf(n + 1, m, q + 1, 0);
    } else {
      ModuloOf(n + 1, m, q, r + 1);
    }
  }

  lemma ModuloOf(n: nat, m: nat, q: int, r: nat)
    requires m > 0 && n == m * q + r && r < m
    ensures n % m == r
  {
    assert m * (n / m - q) == r - n % m;
    AtLeastOnce(m, n / m - q);
  }

  lemma AtLeastOnce(m: int, d: int)
    requires m > 0
    ensures d >= 1 ==> m * d >= m
    ensures d <= -1 ==> m * d <= -m
  {
    if d >= 1 {
      assert m * (d - 1) >= 0;
    } else if d <= -1 {
      assert m * (-1 - d) >= 0;
    }
  }

  /** A reset comes with every so many applications, the one that resets included. */
  lemma {:induction false} ApplicationsSinceReset(s: Settings, inputs: seq<Input>)
    requires s.appsBtwnResets >= 0
    ensures RunOf(s, inputs).apps == |inputs| % (s.appsBtwnResets + 1)
  {
    if inputs != [] {
      ApplicationsSinceReset(s, inputs[..|inputs| - 1]);
      NextModulo(|inputs| - 1, s.appsBtwnResets + 1);
    }
  }

  lemma EmptyStaysEmpty(after: real, past: real, s: Settings)
    requires GainsOrStales(after, 0.0, past, s) && past <= 0.0
    ensures after == 0.0
  {
    assert 0.0 * s.staleFrac == 0.0;
  }

  lemma {:induction false} WithinBandNothingAccumulates(s: Settings, inputs: seq<Input>)
    requires Allowed(s) && forall k :: 0 <= k < |inputs| ==> IsWithinBand(s, inputs[k])
    ensures RunOf(s, inputs).p == 0.0 && RunOf(s, inputs).n == 0.0
  {
    if inputs != [] {
      var front, last := inputs[..|inputs| - 1], inputs[|inputs| - 1];
      WithinBandNothingAccumulates(s, front);
      EveryRunIsBounded(s, front);
      assert IsWithinBand(s, last);
      OneApplication(s, RunOf(s, front), last);
      EmptyStaysEmpty(RunOf(s, inputs).p, last.obsvd - (last.guide + s.halfBand), s);
      EmptyStaysEmpty(-RunOf(s, inputs).n, (last.guide - s.halfBand) - last.obsvd, s);
    }
  }

  /** A value that stays within the band of its guide, edges included, is never warned of. */
  lemma WithinBandNoWarning(s: Settings, inputs: seq<Input>)
    requires Allowed(s) && s.warn > 0.0 && forall k :: 0 <= k < |inputs| ==> IsWithinBand(s, inputs[k])
    ensures FlagsOf(s, RunOf(s, inputs)) == Flags(false, false, false)
  {
    WithinBandNothingAccumulates(s, inputs);
  }

  /** Values at least `d` above the band on a chart from fresh, before its first reset. */
  ghost predicate StaysAbove(s: Settings, inputs: seq<Input>, d: real) {
    && |inputs| <= s.appsBtwnResets
    && forall k :: 0 <= k < |inputs| ==> inputs[k].obsvd >= inputs[k].guide + s.halfBand + d
  }

  ghost predicate StaysBelow(s: Settings, inputs: seq<Input>, d: real) {
    && |inputs| <= s.appsBtwnResets
    && forall k :: 0 <= k < |inputs| ==> inputs[k].obsvd <= inputs[k].guide - s.halfBand - d
  }

  lemma {:induction false} FallingStaysEmpty(s: Settings, inputs: seq<Input>, d: real)
    requires Allowed(s) && d > 0.0 && StaysAbove(s, inputs, d)
    ensures RunOf(s, inputs).n == 0.0
  {
    if inputs != [] {
      var front, last := inputs[..|inputs| - 1], inputs[|inputs| - 1];
      FallingStaysEmpty(s, front, d);
      EveryRunIsBounded(s, front);
      OneApplication(s, RunOf(s, front), last);
      EmptyStaysEmpty(-RunOf(s, inputs).n, (last.guide - s.halfBand) - last.obsvd, s);
    }
  }

  lemma {:induction false} RisingStaysEmpty(s: Settings, inputs: seq<Input>, d: real)
    requires Allowed(s) && d > 0.0 && StaysBelow(s, inputs, d)
    ensures RunOf(s, inputs).p == 0.0
  {
    if inputs != [] {
      var front, last := inputs[..|inputs| - 1], inputs[|inputs| - 1];
      RisingStaysEmpty(s, front, d);
      EveryRunIsBounded(s, front);
      OneApplication(s, RunOf(s, front), last);
      EmptyStaysEmpty(RunOf(s, inputs).p, last.obsvd - (last.guide + s.halfBand), s);
    }
  }

  lemma {:induction false} RunIsApplied(s: Settings, inputs: seq<Input>)
    ensures RunOf(s, inputs) == AppliedAll(s, FRESH, inputs)
  {
    if inputs != [] {
      RunIsApplied(s, inputs[..|inputs| - 1]);
    }
  }

  lemma AreaAbove(s: Settings, i: Input, d: real)
    requires Allowed(s) && i.obsvd >= i.guide + s.halfBand + d
    ensures AreaPastTop(s, i) >= d * Minutes(s)
  {
    MulInOrder(d, i.obsvd - (i.guide + s.halfBand), Minutes(s));
  }

  lemma AreaBelow(s: Settings, i: Input, d: real)
    requires Allowed(s) && i.obsvd <= i.guide - s.halfBand - d
    ensures AreaPastBottom(s, i) <= -(d * Minutes(s))
  {
    MulInOrder(i.obsvd - (i.guide - s.halfBand), -d, Minutes(s));
    NegatedProduct(d, Minutes(s));
  }

  /** So many cycles at such a distance reach the warning level. */
  predicate ReachesWarning(s: Settings, n: nat, area: real) {
    n as real * area >= s.warn
  }

  lemma StaysAboveRaises(s: Settings, inputs: seq<Input>, d: real, area: real)
    requires Allowed(s) && d > 0.0 && StaysAbove(s, inputs, d) && area == d * Minutes(s)
    requires ReachesWarning(s, |inputs|, area)
    ensures RunOf(s, inputs).p == s.warn
  {
    forall k | 0 <= k < |inputs|
      ensures AreaPastTop(s, inputs[k]) >= area
    {
      AreaAbove(s, inputs[k], d);
    }
    SignOfProduct(d, Minutes(s));
    LastingExcursion(s, FRESH, inputs, area);
    RunIsApplied(s, inputs);
  }

  lemma StaysBelowLowers(s: Settings, inputs: seq<Input>, d: real, area: real)
    requires Allowed(s) && d > 0.0 && StaysBelow(s, inputs, d) && area == d * Minutes(s)
    requires ReachesWarning(s, |inputs|, area)
    ensures RunOf(s, inputs).n == -s.warn
  {
    forall k | 0 <= k < |inputs|
      ensures AreaPastBottom(s, inputs[k]) <= -area
    {
      AreaBelow(s, inputs[k], d);
    }
    SignOfProduct(d, Minutes(s));
    LastingExcursionBelow(s, FRESH, inputs, area);
    RunIsApplied(s, inputs);
  }

  /** Long enough above the band, and the chart warns of rising, and of nothing else. */
  lemma StayingAboveIsWarnedOf(s: Settings, inputs: seq<Input>, d: real)
    requires Allowed(s) && s.warn > 0.0 && d > 0.0 && StaysAbove(s, inputs, d)
    requires ReachesWarning(s, |inputs|, d * (s.secsPerCycle as real / 60.0))
    ensures FlagsOf(s, RunOf(s, inputs)) == Flags(false, false, true)
  {
    StaysAboveRaises(s, inputs, d, d * Minutes(s));
    FallingStaysEmpty(s, inputs, d);
    OneSided(s, RunOf(s, inputs));
  }

  /** Long enough below it, and the chart warns of falling, and of nothing else. */
  lemma StayingBelowIsWarnedOf(s: Settings, inputs: seq<Input>, d: real)
    requires Allowed(s) && s.warn > 0.0 && d > 0.0 && StaysBelow(s, inputs, d)
    requires ReachesWarning(s, |inputs|, d * (s.secsPerCycle as real / 60.0))
    ensures FlagsOf(s, RunOf(s, inputs)) == Flags(true, false, false)
  {
    StaysBelowLowers(s, inputs, d, d * Minutes(s));
    RisingStaysEmpty(s, inputs, d);
    OneSided(s, RunOf(s, inputs));
  }

  lemma OneSided(s: Settings, r: Registers)
    requires Allowed(s) && s.warn > 0.0
    ensures r.p == s.warn && r.n == 0.0 ==> FlagsOf(s, r) == Flags(false, false, true)
    ensures r.p == 0.0 && r.n == -s.warn ==> FlagsOf(s, r) == Flags(true, false, false)
  {
    assert s.lagFrac * s.warn >= 0.0;
  }

  // ----- Cycling the chart -----

  datatype Flags = Flags(falling: bool, hunting: bool, rising: bool)

  datatype Chart = Chart(registers: Registers, now: Flags, wasOnLastValid: Flags)

  function FlagsOf(s: Settings, r: Registers): Flags {
    Flags(IsFalling(s, r), IsHunting(s, r), IsRising(s, r))
  }

  function Cycled(s: Settings, c: Chart, valid: bool, i: Input): Chart {
    if !valid then c.(now := c.wasOnLastValid)
    else var r := Applied(s, c.registers, i); Chart(r, FlagsOf(s, r), c.now)
  }

  /** A chart before its first cycle. */
  const STARTING := Chart(FRESH, Flags(false, false, false), Flags(false, false, false))

  datatype CycleInput = CycleInput(valid: bool, input: Input)

  /** The chart after a run of cycles, valid and not. */
  function ChartAfter(s: Settings, run: seq<CycleInput>): Chart {
    if run == [] then STARTING
    else var last := run[|run| - 1]; Cycled(s, ChartAfter(s, run[..|run| - 1]), last.valid, last.input)
  }

  /** The inputs of the valid cycles. */
  function ValidInputs(run: seq<CycleInput>): seq<Input> {
    if run == [] then []
    else ValidInputs(run[..|run| - 1]) + if run[|run| - 1].valid then [run[|run| - 1].input] else []
  }

  lemma OneMoreCycle(s: Settings, run: seq<CycleInput>, c: CycleInput)
    ensures ChartAfter(s, run + [c]) == Cycled(s, ChartAfter(s, run), c.valid, c.input)
    ensures ValidInputs(run + [c]) == ValidInputs(run) + if c.valid then [c.input] else []
  {
    assert (run + [c])[..|run|] == run;
  }

  /** Invalid cycles have no part in what the registers have accumulated. */
  lemma {:induction false} RegistersOfValidCycles(s: Settings, run: seq<CycleInput>)
    ensures ChartAfter(s, run).registers == RunOf(s, ValidInputs(run))
  {
    if run != [] {
      var front, last := run[..|run| - 1], run[|run| - 1];
      RegistersOfValidCycles(s, front);
      if last.valid {
        assert ValidInputs(run)[..|ValidInputs(run)| - 1] == ValidInputs(front);
      } else {
        assert ValidInputs(run) == ValidInputs(front);
      }
    }
  }

  predicate AllInvalid(gap: seq<CycleInput>) {
    forall k :: 0 <= k < |gap| ==> !gap[k].valid
  }

  lemma {:induction false} GapHoldsFlags(s: Settings, run: seq<CycleInput>, gap: seq<CycleInput>)
    requires gap != [] && AllInvalid(gap)
    ensures ChartAfter(s, run + gap) == ChartAfter(s, run).(now := ChartAfter(s, run).wasOnLastValid)
  {
    var front, last := gap[..|gap| - 1], gap[|gap| - 1];
    assert run + gap == (run + front) + [last];
    OneMoreCycle(s, run + front, last);
    if front == [] {
      assert run + front == run;
    } else {
      GapHoldsFlags(s, run, front);
    }
  }

  /** A chart that goes invalid is to keep the warnings it was giving.  Whatever has gone before,
      for as long as it stays invalid it shows those of the cycle before its last valid one, so
      it keeps its warnings exactly if the last valid cycle did not change any. */
  lemma GoingInvalidKeepsWarningsIff(s: Settings, run: seq<CycleInput>, i: Input, gap: seq<CycleInput>)
    requires gap != [] && AllInvalid(gap)
    ensures var last := run + [CycleInput(true, i)];
            var shown := ChartAfter(s, last + gap);
            && ChartAfter(s, last).now == FlagsOf(s, RunOf(s, ValidInputs(last)))
            && shown.registers == RunOf(s, ValidInputs(last))
            && shown.now == ChartAfter(s, run).now
            && (shown.now == ChartAfter(s, last).now <==>
                  ChartAfter(s, run).now == FlagsOf(s, RunOf(s, ValidInputs(last))))
  {
    var last := run + [CycleInput(true, i)];
    OneMoreCycle(s, run, CycleInput(true, i));
    GapHoldsFlags(s, last, gap);
    RegistersOfValidCycles(s, last);
  }

  lemma {:induction false} ValidAreWithinBand(s: Settings, run: seq<CycleInput>)
    requires forall k :: 0 <= k < |run| && run[k].valid ==> IsWithinBand(s, run[k].input)
    ensures forall k :: 0 <= k < |ValidInputs(run)| ==> IsWithinBand(s, ValidInputs(run)[k])
  {
    if run != [] {
      var front, last := run[..|run| - 1], run[|run| - 1];
      ValidAreWithinBand(s, front);
      assert last.valid ==> IsWithinBand(s, last.input);
      forall k | 0 <= k < |ValidInputs(run)|
        ensures IsWithinBand(s, ValidInputs(run)[k])
      {
        assert k < |ValidInputs(front)| ==> ValidInputs(run)[k] == ValidInputs(front)[k];
      }
    }
  }

  /** Over any cycles, valid or not, a chart whose value stays within the band in the valid ones
      never warns. */
  lemma {:induction false} WithinBandNeverWarns(s: Settings, run: seq<CycleInput>)
    requires Allowed(s) && s.warn > 0.0
    requires forall k :: 0 <= k < |run| && run[k].valid ==> IsWithinBand(s, run[k].input)
    ensures var c, none := ChartAfter(s, run), Flags(false, false, false);
            c.now == none && c.wasOnLastValid == none
  {
    if run != [] {
      WithinBandNeverWarns(s, run[..|run| - 1]);
      ValidAreWithinBand(s, run);
      WithinBandNoWarning(s, ValidInputs(run));
      RegistersOfValidCycles(s, run);
    }
  }

  /** On every chart some run loses a warning by going invalid: its first excursion is enough. */
  lemma WarningCanBeLost(s: Settings) returns (i: Input)
    requires Allowed(s)
    ensures var warned := [CycleInput(true, i)];
            && ChartAfter(s, warned).now.rising
            && !ChartAfter(s, warned + [CycleInput(false, i)]).now.rising
  {
    i := Swing(s)[0];
    var warned := [] + [CycleInput(true, i)];
    OneMoreCycle(s, [], CycleInput(true, i));
    assert warned == [CycleInput(true, i)];
    if s.warn > 0.0 {
      SwingAreas(s);
    }
    assert s.lagFrac * s.warn >= 0.0;
    assert Bounded(s, FRESH);
    OneMoreCycle(s, warned, CycleInput(false, i));
  }

  /** The fresh part of a gain less the stale part, one of which is none. */
  method GainOf(register: real, area: real, counts: bool, staleFrac: real) returns (gain: real)
    ensures gain == Gain(register, area, counts, staleFrac)
  {
    var newly := if counts then area else 0.0;
    var stale := if counts then 0.0 else register * staleFrac;
    gain := newly - stale;
  }

  class TrackingChart {
    var settings: Settings
    var register_P: real
    var register_N: real
    var appsSinceReset: int
    var isFallingNow: bool
    var isHuntingNow: bool
    var isRisingNow: bool
    var wasFallingOnLastValid: bool
    var wasHuntingOnLastValid: bool
    var wasRisingOnLastValid: bool
    var trackerOn: bool

    constructor (settings: Settings)
      ensures RegistersNow() == FRESH && this.settings == settings
    {
      this.settings := settings;
      register_P, register_N, appsSinceReset := 0.0, 0.0, 0;
      isFallingNow, isHuntingNow, isRisingNow := false, false, false;
      wasFallingOnLastValid, wasHuntingOnLastValid, wasRisingOnLastValid := false, false, false;
      trackerOn := false;
    }

    function RegistersNow(): Registers
      reads this
    {
      Registers(register_P, register_N, appsSinceReset)
    }

    function ChartNow(): Chart
      reads this
    {
      Chart(RegistersNow(), Flags(isFallingNow, isHuntingNow, isRisingNow),
            Flags(wasFallingOnLastValid, wasHuntingOnLastValid, wasRisingOnLastValid))
    }

    method ApplyChart(i: Input)
      modifies this`register_P, this`register_N, this`appsSinceReset,
        this`isFallingNow, this`isHuntingNow, this`isRisingNow
      ensures RegistersNow() == Applied(settings, old(RegistersNow()), i)
      ensures ChartNow().now == FlagsOf(settings, RegistersNow())
      ensures Allowed(settings) && Bounded(settings, old(RegistersNow())) ==>
                MovesBy(settings, old(RegistersNow()), i, RegistersNow())
    {
      if Allowed(settings) && Bounded(settings, RegistersNow()) {
        OneApplication(settings, RegistersNow(), i);
      }
      CountApplication();
      var areaPastTop, areaPastBtm := AreasPastBand(i);
      Accumulate(areaPastTop, areaPastBtm);
      Judge();
    }

    method CountApplication()
      modifies this`register_P, this`register_N, this`appsSinceReset
      ensures RegistersNow() == Counted(settings, old(RegistersNow()))
    {
      appsSinceReset := appsSinceReset + 1;
      if appsSinceReset > settings.appsBtwnResets {
        register_N, register_P, appsSinceReset := 0.0, 0.0, 0;
      }
    }

    method AreasPastBand(i: Input) returns (areaPastTop: real, areaPastBtm: real)
      ensures areaPastTop == AreaPastTop(settings, i) && areaPastBtm == AreaPastBottom(settings, i)
    {
      var bandTop := i.guide + settings.halfBand;
      var bandBtm := i.guide - settings.halfBand;
      var minutes := settings.secsPerCycle as real / 60.0;
      areaPastTop := (i.obsvd - bandTop) * minutes;
      areaPastBtm := (i.obsvd - bandBtm) * minutes;
    }

    method Judge()
      modifies this`isFallingNow, this`isHuntingNow, this`isRisingNow
      ensures ChartNow().now == FlagsOf(settings, RegistersNow())
    {
      isRisingNow := register_P == settings.warn && !(register_N < -(settings.lagFrac * settings.warn));
      isFallingNow := register_N == -settings.warn && !(register_P > settings.lagFrac * settings.warn);
      isHuntingNow := register_P == settings.warn && register_N == -settings.warn;
    }

    method Accumulate(areaPastTop: real, areaPastBtm: real)
      modifies this`register_P, this`register_N
      ensures RegistersNow() == Accumulated(settings, old(RegistersNow()), areaPastTop, areaPastBtm)
    {
      var gainP := GainOf(register_P, areaPastTop, areaPastTop > 0.0, settings.staleFrac);
      var gainN := GainOf(register_N, areaPastBtm, areaPastBtm < 0.0, settings.staleFrac);
      register_P := Max(0.0, Min(register_P + gainP, settings.warn));
      register_N := Min(0.0, Max(register_N + gainN, -settings.warn));
    }

    /** One step in time.  The chart is applied whether or not its tracker is on: it is meant
        not to be during transients of its inputs. */
    method Cycle(validNow: bool, inputsSteady: bool, i: Input)
      modifies this
      ensures settings == old(settings) && ChartNow() == Cycled(settings, old(ChartNow()), validNow, i)
      ensures trackerOn == if validNow then inputsSteady else old(trackerOn)
    {
      if !validNow {
        isFallingNow, isHuntingNow, isRisingNow :=
          wasFallingOnLastValid, wasHuntingOnLastValid, wasRisingOnLastValid;
        return;
      }
      wasFallingOnLastValid, wasHuntingOnLastValid, wasRisingOnLastValid := isFallingNow, isHuntingNow, isRisingNow;
      trackerOn := inputsSteady;
      ApplyChart(i);
    }
  }
}
