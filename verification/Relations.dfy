/** The relations by which facts compare two values, with slack and hysteresis: once true, a
    relation stays true until it is missed by more than the hysteresis.  Reals stand for the
    program's floats. */
module Relations {

  datatype Relation = LessThan | GreaterThan | Equal | GreaterOrEqual | LessOrEqual

  function Abs(x: real): real {
    if x < 0.0 then -x else x
  }

  /** How far the relation is from holding, before any allowance. */
  function Miss(rel: Relation, left: real, right: real): real {
    match rel
    case LessThan => left - right
    case LessOrEqual => left - right
    case GreaterThan => right - left
    case GreaterOrEqual => right - left
    case Equal => Abs(left - right)
  }

  predicate IsStrict(rel: Relation) {
    rel == LessThan || rel == GreaterThan
  }

  /** The result, given the one before. */
  predicate Holds(rel: Relation, hyster: real, slack: real, was: bool, miss: real) {
    var allowed := slack + (if was then hyster else 0.0);
    if IsStrict(rel) then miss < allowed else miss <= allowed
  }

  datatype Pair = Pair(left: real, right: real)

  /** The result after a run of evaluations; false before the first. */
  predicate ResultAfter(rel: Relation, hyster: real, slack: real, run: seq<Pair>) {
    run != []
    && var last := run[|run| - 1];
       Holds(rel, hyster, slack, ResultAfter(rel, hyster, slack, run[..|run| - 1]), Miss(rel, last.left, last.right))
  }

  lemma ResultOfOneMore(rel: Relation, hyster: real, slack: real, run: seq<Pair>, p: Pair)
    ensures ResultAfter(rel, hyster, slack, run + [p])
       <==> Holds(rel, hyster, slack, ResultAfter(rel, hyster, slack, run), Miss(rel, p.left, p.right))
  {
    assert (run + [p])[..|run|] == run;
  }

  /** The two values compared: each relation is as its sign says, but that it is widened by the slack
      and, while it has held, by the hysteresis too. */
  lemma ResultCompares(rel: Relation, hyster: real, slack: real, run: seq<Pair>, p: Pair)
    ensures var now, wide := ResultAfter(rel, hyster, slack, run + [p]),
                             slack + if ResultAfter(rel, hyster, slack, run) then hyster else 0.0;
            match rel
            case LessThan => now <==> p.left < p.right + wide
            case GreaterThan => now <==> p.left > p.right - wide
            case Equal => now <==> p.right - wide <= p.left <= p.right + wide
            case GreaterOrEqual => now <==> p.left >= p.right - wide
            case LessOrEqual => now <==> p.left <= p.right + wide
  {
    ResultOfOneMore(rel, hyster, slack, run, p);
  }

  // ----- Chatter is bounded by how much the values move -----

  function Flips(rel: Relation, hyster: real, slack: real, run: seq<Pair>): nat {
    if run == [] then 0
    else
      var front := run[..|run| - 1];
      Flips(rel, hyster, slack, front)
      + if ResultAfter(rel, hyster, slack, front) && !ResultAfter(rel, hyster, slack, run) then 1 else 0
  }

  function MissAt(rel: Relation, p: Pair): real {
    Miss(rel, p.left, p.right)
  }

  /** The total variation of the miss along a run. */
  function Variation(rel: Relation, run: seq<Pair>): real {
    if |run| <= 1 then 0.0
    else Variation(rel, run[..|run| - 1]) + Abs(MissAt(rel, run[|run| - 1]) - MissAt(rel, run[|run| - 2]))
  }

  function Clamped(x: real, most: real): real {
    if x < 0.0 then 0.0 else if x > most then most else x
  }

  function Scaled(n: nat, hyster: real): real {
    if n == 0 then 0.0 else Scaled(n - 1, hyster) + hyster
  }

  lemma {:induction false} ScaledIsProduct(n: nat, hyster: real)
    ensures Scaled(n, hyster) == (n as real) * hyster
  {
    if n > 0 {
      ScaledIsProduct(n - 1, hyster);
      assert (n as real) * hyster == ((n - 1) as real) * hyster + hyster;
    } else {
      assert (0 as real) * hyster == 0.0;
    }
  }

  /** Movement accounted for: the hysteresis crossed on the way to each flip and on the way
      back from it, and what has been crossed of it since. */
  function Crossed(hyster: real, slack: real, flips: nat, now: bool, miss: real): real {
    if now then Scaled(2 * flips, hyster) + Clamped(miss - slack, hyster)
    else if flips == 0 then 0.0
    else Scaled(2 * flips - 1, hyster) + Clamped(slack + hyster - miss, hyster)
  }

  predicate WithinReach(rel: Relation, hyster: real, slack: real, now: bool, miss: real) {
    now ==> if IsStrict(rel) then miss < slack + hyster else miss <= slack + hyster
  }

  /** One evaluation: what more is crossed, the miss has moved. */
  lemma EvaluationIsPaidFor(rel: Relation, hyster: real, slack: real, flips: nat, was: bool, before: real, miss: real)
    requires hyster >= 0.0 && WithinReach(rel, hyster, slack, was, before)
    ensures var now := Holds(rel, hyster, slack, was, miss);
            var more := if was && !now then flips + 1 else flips;
            && WithinReach(rel, hyster, slack, now, miss)
            && Crossed(hyster, slack, more, now, miss)
               <= Crossed(hyster, slack, flips, was, before) + Abs(miss - before)
  {
    assert Scaled(2 * flips + 1, hyster) == Scaled(2 * flips, hyster) + hyster;
    if flips > 0 {
      assert Scaled(2 * flips, hyster) == Scaled(2 * flips - 1, hyster) + hyster;
    }
  }

  lemma {:induction false} FlipsArePaidFor(rel: Relation, hyster: real, slack: real, run: seq<Pair>)
    requires hyster >= 0.0 && run != []
    ensures var now, miss := ResultAfter(rel, hyster, slack, run), MissAt(rel, run[|run| - 1]);
            && WithinReach(rel, hyster, slack, now, miss)
            && Crossed(hyster, slack, Flips(rel, hyster, slack, run), now, miss) <= Variation(rel, run)
  {
    var n := |run| - 1;
    if n == 0 {
      assert run[..0] == [];
    } else {
      var front := run[..n];
      FlipsArePaidFor(rel, hyster, slack, front);
      EvaluationIsPaidFor(rel, hyster, slack, Flips(rel, hyster, slack, front), ResultAfter(rel, hyster, slack, front),
                          MissAt(rel, run[n - 1]), MissAt(rel, run[n]));
    }
  }

  lemma ChatterIsPaidFor(rel: Relation, hyster: real, slack: real, run: seq<Pair>)
    requires hyster >= 0.0 && run != [] && Flips(rel, hyster, slack, run) > 0
    ensures Scaled(2 * Flips(rel, hyster, slack, run) - 1, hyster) <= Variation(rel, run)
  {
    FlipsArePaidFor(rel, hyster, slack, run);
  }

  predicate TimesAtMost(n: int, hyster: real, most: real) {
    n as real * hyster <= most
  }

  lemma ProductAtMost(n: nat, hyster: real, most: real)
    requires Scaled(n, hyster) <= most
    ensures TimesAtMost(n, hyster, most)
  {
    ScaledIsProduct(n, hyster);
  }

  /** Over any run, a relation that has gone from true to false so many times has had its
      values move apart by the hysteresis each time, and back again in between: twice the
      flips less one, times the hysteresis, is no more than the total variation. */
  lemma HysteresisBoundsChatter(rel: Relation, hyster: real, slack: real, run: seq<Pair>)
    requires hyster >= 0.0 && run != [] && Flips(rel, hyster, slack, run) > 0
    ensures TimesAtMost(2 * Flips(rel, hyster, slack, run) - 1, hyster, Variation(rel, run))
  {
    ChatterIsPaidFor(rel, hyster, slack, run);
    var changes := 2 * Flips(rel, hyster, slack, run) - 1;
    ProductAtMost(changes, hyster, Variation(rel, run));
  }

  /** Swinging from just short of the slack to the hysteresis past it, and back. */
  function Swings(hyster: real, slack: real, short: real, n: nat): seq<Pair> {
    if n == 0 then []
    else Swings(hyster, slack, short, n - 1) + [Pair(slack - short, 0.0)] + [Pair(slack + hyster, 0.0)]
  }

  lemma SwingIn(hyster: real, slack: real, short: real, run: seq<Pair>)
    requires hyster >= 0.0 && short > 0.0 && !ResultAfter(LessThan, hyster, slack, run)
    requires run != [] ==> run[|run| - 1] == Pair(slack + hyster, 0.0)
    ensures var after := run + [Pair(slack - short, 0.0)];
            && ResultAfter(LessThan, hyster, slack, after)
            && Flips(LessThan, hyster, slack, after) == Flips(LessThan, hyster, slack, run)
            && Variation(LessThan, after) == Variation(LessThan, run) + (if run == [] then 0.0 else hyster + short)
  {
    var after := run + [Pair(slack - short, 0.0)];
    assert after[..|run|] == run;
  }

  lemma SwingOut(hyster: real, slack: real, short: real, run: seq<Pair>)
    requires hyster >= 0.0 && short > 0.0 && ResultAfter(LessThan, hyster, slack, run)
    requires run[|run| - 1] == Pair(slack - short, 0.0)
    ensures var after := run + [Pair(slack + hyster, 0.0)];
            && !ResultAfter(LessThan, hyster, slack, after)
            && Flips(LessThan, hyster, slack, after) == Flips(LessThan, hyster, slack, run) + 1
            && Variation(LessThan, after) == Variation(LessThan, run) + (hyster + short)
  {
    var after := run + [Pair(slack + hyster, 0.0)];
    assert after[..|run|] == run;
  }

  /** What so many swings amount to. */
  ghost predicate SwungFor(run: seq<Pair>, hyster: real, slack: real, short: real, n: nat) {
    && (run == [] <==> n == 0) && (run != [] ==> run[|run| - 1] == Pair(slack + hyster, 0.0))
    && !ResultAfter(LessThan, hyster, slack, run) && Flips(LessThan, hyster, slack, run) == n
    && Variation(LessThan, run) == if n == 0 then 0.0 else Scaled(2 * n - 1, hyster + short)
  }

  lemma OneMoreSwing(run: seq<Pair>, hyster: real, slack: real, short: real, n: nat)
    requires hyster >= 0.0 && short > 0.0 && SwungFor(run, hyster, slack, short, n)
    ensures SwungFor(run + [Pair(slack - short, 0.0)] + [Pair(slack + hyster, 0.0)], hyster, slack, short, n + 1)
  {
    SwingIn(hyster, slack, short, run);
    SwingOut(hyster, slack, short, run + [Pair(slack - short, 0.0)]);
    ScaledTwice(n + 1, hyster + short);
  }

  lemma {:induction false} SwingsAddUp(hyster: real, slack: real, short: real, n: nat)
    requires hyster >= 0.0 && short > 0.0
    ensures SwungFor(Swings(hyster, slack, short, n), hyster, slack, short, n)
  {
    if n > 0 {
      SwingsAddUp(hyster, slack, short, n - 1);
      OneMoreSwing(Swings(hyster, slack, short, n - 1), hyster, slack, short, n - 1);
    }
  }

  lemma ScaledTwice(n: nat, step: real)
    requires n > 0
    ensures Scaled(2 * n - 1, step) == (if n == 1 then step else Scaled(2 * n - 3, step) + step + step)
  {
    if n == 1 {
      assert Scaled(1, step) == Scaled(0, step) + step;
    } else {
      assert Scaled(2 * n - 2, step) == Scaled(2 * n - 3, step) + step;
    }
  }

  /** The bound cannot be improved on: each swing flips the relation, and the variation is as
      near to the bound as the swings fall little short of the slack. */
  lemma SwingsMeetTheBound(hyster: real, slack: real, short: real, n: nat)
    requires hyster >= 0.0 && short > 0.0 && n > 0
    ensures Flips(LessThan, hyster, slack, Swings(hyster, slack, short, n)) == n
    ensures Variation(LessThan, Swings(hyster, slack, short, n)) == (2 * n - 1) as real * (hyster + short)
  {
    SwingsAddUp(hyster, slack, short, n);
    ScaledIsProduct(2 * n - 1, hyster + short);
  }

  // ----- The functors -----

  class RelationFunctor {
    const relation: Relation
    var hyster: real
    var slack: real
    var spillage: real
    var resultNow: bool
    var resultWas: bool

    constructor (relation: Relation, hyster: real, slack: real)
      ensures this.relation == relation && this.hyster == hyster && this.slack == slack && !resultWas
    {
      this.relation, this.hyster, this.slack := relation, hyster, slack;
      spillage, resultNow, resultWas := 0.0, false, false;
    }

    /** One evaluation; the spillage is how far a missed relation is from holding without
        slack or hysteresis. */
    method Evaluate(left: real, right: real) returns (result: bool)
      modifies this`spillage, this`resultNow, this`resultWas
      ensures result == resultNow == resultWas
      ensures result == Holds(relation, hyster, slack, old(resultWas), Miss(relation, left, right))
      ensures spillage == if Miss(relation, left, right) < 0.0 || (relation == Equal && result) then 0.0
                          else Miss(relation, left, right)
    {
      var h := if resultWas then hyster else 0.0;
      match relation {
        case LessThan =>
          resultNow := left < right + slack + h;
          spillage := if left - right < 0.0 then 0.0 else left - right;
        case GreaterThan =>
          resultNow := left > right - slack - h;
          spillage := if right - left < 0.0 then 0.0 else right - left;
        case Equal =>
          var aboveFloor := left >= right - slack - h;
          var belowCeiling := left <= right + slack + h;
          resultNow := aboveFloor && belowCeiling;
          spillage := if resultNow then 0.0 else Abs(right - left);
        case GreaterOrEqual =>
          resultNow := left >= right - slack - h;
          spillage := if right - left < 0.0 then 0.0 else right - left;
        case LessOrEqual =>
          resultNow := left <= right + slack + h;
          spillage := if left - right < 0.0 then 0.0 else left - right;
      }
      resultWas := resultNow;
      return resultNow;
    }
  }
}
