/** How a case comes to be, and when it cannot: its tallies look up each hypothesis and item by
    id, and its first walk over the hypotheses divides by the sum of their priors and looks up a
    candidate it does not have yet. */
module CaseCreation {
  import opened Nodes
  import opened Tallies
  import opened OccurrenceTable
  import opened Bayes
  import opened Dialogue
  import opened DialogueSafety
  import opened MostProbable

  /** A case before anything has been inferred about it. */
  function Opened(rule: nat, hasDiagnostics: bool, hypos: seq<HypoTally>, evids: seq<nat>, sumPrior: int): CaseState {
    CaseState(rule, hasDiagnostics, |hypos|,
              Asking(TopMenuCaseInProcess, OPTIONS_TOP_MENU),
              Evidence(seq(|evids|, i requires 0 <= i < |evids| => EvidTally(evids[i], ROW_UNEVALUATED)), evids, 0),
              Inference(hypos, sumPrior, 0, |hypos|, true, 0, false),
              0, false, false, false)
  }

  datatype Creation = Created(state: CaseState) | NotNamed | DividesByZero | LookUpFails

  /** The constructor's outcome, given its tallies. */
  function Begun(rule: nat, hasDiagnostics: bool, hypos: seq<HypoTally>, evids: seq<nat>, sumPrior: int): Creation
    requires sumPrior >= 0
  {
    var s := Opened(rule, hasDiagnostics, hypos, evids, sumPrior);
    if hypos == [] then Created(s)
    else if sumPrior == 0 then DividesByZero
    else if ScanOf(s.inference).threw then LookUpFails
    else Created(s.(inference := Updated(s.inference, false)))
  }

  /** There is an object to look up for each of them. */
  predicate AllKnown(known: Known, hypos: seq<HypoTally>, evids: seq<nat>) {
    Range(HypoIds(hypos)) <= known.hypos && Range(evids) <= known.evids
  }

  /** The constructor's outcome. */
  function Started(known: Known, rule: nat, hasDiagnostics: bool, hypos: seq<HypoTally>, evids: seq<nat>,
                   sumPrior: int): Creation
    requires sumPrior >= 0
  {
    if !AllKnown(known, hypos, evids) then NotNamed else Begun(rule, hasDiagnostics, hypos, evids, sumPrior)
  }

  /** Fresh tallies as the knowledge base supplies them. */
  ghost predicate Fresh(hypos: seq<HypoTally>, evids: seq<nat>, sumPrior: int) {
    && Distinct(HypoIds(hypos)) && Distinct(evids)
    && (forall i :: 0 <= i < |hypos| ==> hypos[i] == NewHypo(hypos[i].id, hypos[i].priorCount)
                                         && hypos[i].id > 0 && hypos[i].priorCount >= 0)
    && sumPrior == SumPriors(hypos)
  }

  lemma OpenedInference(hypos: seq<HypoTally>, evids: seq<nat>, sumPrior: int, mapp: nat)
    requires Fresh(hypos, evids, sumPrior) && sumPrior > 0 && mapp in HypoIds(hypos)
    ensures InferenceSound(Inference(hypos, sumPrior, 0, |hypos|, true, mapp, false))
  {
    AllAlive(hypos);
    assert HypoIds(hypos) != [];
  }

  lemma OpenedEvidence(evids: seq<nat>)
    requires Distinct(evids)
    ensures EvidenceSound(Opened(0, false, [], evids, 0).evidence, false)
    ensures EvidIds(Opened(0, false, [], evids, 0).evidence.evids) == evids
  {
    var e := Opened(0, false, [], evids, 0).evidence;
    assert EvidIds(e.evids) == evids;
  }

  predicate SomePastCutOff(probs: seq<int>) {
    exists i :: 0 <= i < |probs| && probs[i] > CUT_OFF
  }

  /** The first scan as a scan from its first hypothesis. */
  lemma FirstScan(hypos: seq<HypoTally>, evids: seq<nat>, sumPrior: int)
    requires Fresh(hypos, evids, sumPrior) && sumPrior > 0 && hypos != []
    ensures var f := Inference(hypos, sumPrior, 0, |hypos|, true, 0, false);
            && Counts(f) == Priors(hypos)
            && (ScanOf(f).threw <==> 1000 * hypos[0].priorCount < sumPrior)
            && (!ScanOf(f).threw ==>
                  && ScanOf(f).mapp in HypoIds(hypos)
                  && HasMaximalCount(HypoIds(hypos), Priors(hypos), ScanOf(f).mapp)
                  && AreProbabilities(PerMilles(Priors(hypos), sumPrior))
                  && (ScanOf(f).at100 <==> SomePastCutOff(PerMilles(Priors(hypos), sumPrior))))
  {
    var f := Inference(hypos, sumPrior, 0, |hypos|, true, 0, false);
    var ids, counts := HypoIds(hypos), Priors(hypos);
    var probs := PerMilles(counts, sumPrior);
    assert Counts(f) == counts;
    PriorsAddUp(hypos);
    PerMillesOfADistribution(counts, sumPrior);
    FirstScanThrowsIff(ids, counts, probs, 0, |ids|);
    EachWithinSum(counts, 0);
    PerMilleZeroIff(counts[0], sumPrior);
    if probs[0] > 0 {
      FirstScanAsAny(ids, counts, probs, 0, |ids|);
      ScanFindsMaximalCount(ids, counts, sumPrior, ids[0]);
    }
  }

  lemma PerMilleZeroIff(count: int, total: int)
    requires 0 <= count <= total && total > 0
    ensures PerMille(count, total) == 0 <==> 1000 * count < total
  {
    PerMilleBounds(count, total);
    var p := PerMille(count, total);
    if p >= 1 {
      MulMonotone(total, 1, p);
    }
  }

  /** A case on fresh tallies with some hypothesis comes into being exactly when all can be
      looked up, there is a prior to divide by, and the first hypothesis walked has at least one
      per-mille of it.  The case is then sound, its priors are probabilities, and the solution it
      starts from has a prior no other exceeds. */
  lemma CreatedIff(known: Known, rule: nat, hasDiagnostics: bool, hypos: seq<HypoTally>, evids: seq<nat>, sumPrior: int)
    requires Fresh(hypos, evids, sumPrior) && hypos != [] && sumPrior >= 0
    ensures var c := Started(known, rule, hasDiagnostics, hypos, evids, sumPrior);
            && (c.Created? <==>
                  AllKnown(known, hypos, evids) && sumPrior > 0 && sumPrior <= 1000 * hypos[0].priorCount)
            && (c.Created? ==>
                  && Sound(c.state) && c.state.prompt.waiting && !c.state.verified
                  && HypoIds(c.state.inference.hypos) == HypoIds(hypos)
                  && EvidIds(c.state.evidence.evids) == evids && c.state.evidence.queue == evids
                  && AreProbabilities(PriorProbs(c.state.inference.hypos))
                  && HasMaximalCount(HypoIds(hypos), Priors(hypos), c.state.inference.mapp)
                  && (c.state.inference.mappAt100pct <==> SomePastCutOff(PriorProbs(c.state.inference.hypos))))
  {
    if AllKnown(known, hypos, evids) && sumPrior > 0 {
      FirstScan(hypos, evids, sumPrior);
      var c := Begun(rule, hasDiagnostics, hypos, evids, sumPrior);
      if c.Created? {
        CreatedSound(rule, hasDiagnostics, hypos, evids, sumPrior);
      }
    }
  }

  lemma CreatedSound(rule: nat, hasDiagnostics: bool, hypos: seq<HypoTally>, evids: seq<nat>, sumPrior: int)
    requires Fresh(hypos, evids, sumPrior) && hypos != [] && sumPrior > 0
    requires Begun(rule, hasDiagnostics, hypos, evids, sumPrior).Created?
    ensures var s := Begun(rule, hasDiagnostics, hypos, evids, sumPrior).state;
            && Sound(s) && HypoIds(s.inference.hypos) == HypoIds(hypos)
            && EvidIds(s.evidence.evids) == evids
            && PriorProbs(s.inference.hypos) == PerMilles(Priors(hypos), sumPrior)
  {
    var f := Inference(hypos, sumPrior, 0, |hypos|, true, 0, false);
    var s := Begun(rule, hasDiagnostics, hypos, evids, sumPrior).state;
    FirstScan(hypos, evids, sumPrior);
    OpenedInference(hypos, evids, sumPrior, ScanOf(f).mapp);
    WithProbsInference(f.(mapp := ScanOf(f).mapp), sumPrior, ScanOf(f).mapp, ScanOf(f).at100);
    OpenedEvidence(evids);
    assert PriorProbs(s.inference.hypos) == PerMilles(Priors(hypos), sumPrior);
  }

  /** The solution a case starts from is the first walked of the hypotheses that have most often
      been true, at 100% exactly if one of them was so 990 times in a thousand. */
  lemma StartsFromFirstOfMost(known: Known, rule: nat, hasDiagnostics: bool, hypos: seq<HypoTally>, evids: seq<nat>,
                              sumPrior: int)
    requires Fresh(hypos, evids, sumPrior) && hypos != [] && sumPrior >= 0 && |hypos| <= MAX_HYPOS
    requires Started(known, rule, hasDiagnostics, hypos, evids, sumPrior).Created?
    ensures var f := Started(known, rule, hasDiagnostics, hypos, evids, sumPrior).state.inference;
            && IsFirstOfMost(HypoIds(hypos), Priors(hypos), f.mapp)
            && (f.mappAt100pct <==> exists i :: 0 <= i < |hypos| && 1000 * hypos[i].priorCount >= 990 * sumPrior)
  {
    var f := Inference(hypos, sumPrior, 0, |hypos|, true, 0, false);
    var ids, counts := HypoIds(hypos), Priors(hypos);
    FirstScan(hypos, evids, sumPrior);
    PriorsAddUp(hypos);
    EachWithinSum(counts, 0);
    PerMilleZeroIff(counts[0], sumPrior);
    FirstScanAsAny(ids, counts, PerMilles(counts, sumPrior), 0, |ids|);
    ScanEndsOnFirstOfMost(ids, counts, sumPrior, ids[0]);
    assert forall i :: 0 <= i < |hypos| ==> counts[i] == hypos[i].priorCount;
  }

  // ----- On a knowledge base that grew from its design -----

  ghost predicate AllNamed(assocs: seq<Association>, evids: set<nat>) {
    forall e :: e in evids ==> exists a :: a in assocs && a.evid == e
  }

  /** The prior of a hypothesis counts the verified cases it explained, once for each
      evidence item, on top of the one count of its design. */
  lemma {:induction false} PriorOnDesign(nodes: NodeMap, rule: nat, hypos: seq<nat>, assocs: seq<Association>,
                                         history: seq<Teaching>, hypo: nat, evids: seq<nat>)
    requires hypo in hypos && AllWellFormed(history) && AllNamed(assocs, Range(evids))
    requires forall t :: t in history && t.rule == rule ==> t.hypos == Range(hypos) && Range(evids) <= t.status.Keys
    ensures PriorCount(TaughtAll(Built(nodes, rule, hypos, assocs), history), rule, hypo, evids)
         == |evids| * (1 + TimesTrue(history, rule, hypo))
  {
    if evids != [] {
      var n := |evids| - 1;
      assert evids[n] in Range(evids) && Range(evids[..n]) <= Range(evids);
      TrueTotalForLife(nodes, rule, hypos, assocs, history, hypo, evids[n]);
      PriorOnDesign(nodes, rule, hypos, assocs, history, hypo, evids[..n]);
      OneMore(n, 1 + TimesTrue(history, rule, hypo));
    }
  }

  lemma OneMore(n: int, k: int)
    ensures (n + 1) * k == n * k + k
  {
  }

  lemma {:induction false} SumOfScaledPriors(hypos: seq<HypoTally>, history: seq<Teaching>, rule: nat, m: nat)
    requires forall i :: 0 <= i < |hypos| ==> hypos[i].priorCount == m * (1 + TimesTrue(history, rule, hypos[i].id))
    ensures SumPriors(hypos) == m * (|hypos| + SumTimesTrue(history, rule, HypoIds(hypos)))
  {
    if hypos != [] {
      var front, last := hypos[..|hypos| - 1], hypos[|hypos| - 1];
      SumOfScaledPriors(front, history, rule, m);
      assert HypoIds(hypos) == HypoIds(front) + [last.id];
      SumTimesTrueAppend(history, rule, HypoIds(front), last.id);
      MulSum(m, |front| + SumTimesTrue(history, rule, HypoIds(front)), 1 + TimesTrue(history, rule, last.id));
    }
  }

  lemma {:induction false} SumTimesTrueAppend(history: seq<Teaching>, rule: nat, ids: seq<nat>, id: nat)
    ensures SumTimesTrue(history, rule, ids + [id]) == SumTimesTrue(history, rule, ids) + TimesTrue(history, rule, id)
  {
    if ids == [] {
      assert SumTimesTrue(history, rule, [id]) == TimesTrue(history, rule, id) + SumTimesTrue(history, rule, [id][1..]);
    } else {
      SumTimesTrueAppend(history, rule, ids[1..], id);
      assert (ids + [id])[1..] == ids[1..] + [id];
    }
  }

  lemma {:induction false} DistinctLength(s: seq<nat>)
    requires Distinct(s)
    ensures |s| == |Range(s)|
  {
    if s != [] {
      var n := |s| - 1;
      DistinctLength(s[..n]);
      assert Range(s) == Range(s[..n]) + {s[n]};
    }
  }

  /** How often each hypothesis has been the true one, as its prior: once for each of the
      `m` evidence items, by design, and as often again for each verified case. */
  ghost predicate ScaledPriors(hypos: seq<HypoTally>, history: seq<Teaching>, rule: nat, m: nat) {
    forall i :: 0 <= i < |hypos| ==> hypos[i].priorCount == m * (1 + TimesTrue(history, rule, hypos[i].id))
  }

  /** The priors counted on a knowledge base grown from its design.  `orders` are the
      orders, whatever they are, in which the evidence items are on file. */
  ghost predicate CountedOnDesign(hypos: seq<HypoTally>, nodes: NodeMap, rule: nat, design: seq<nat>,
                                  assocs: seq<Association>, history: seq<Teaching>, orders: seq<seq<nat>>)
    requires AllWellFormed(history)
  {
    && |orders| == |hypos|
    && forall i :: 0 <= i < |hypos| ==>
         hypos[i].priorCount
         == PriorCount(TaughtAll(Built(nodes, rule, design, assocs), history), rule, hypos[i].id, orders[i])
  }

  ghost predicate OrdersOf(orders: seq<seq<nat>>, evids: seq<nat>) {
    forall i :: 0 <= i < |orders| ==> Distinct(orders[i]) && Range(orders[i]) == Range(evids)
  }

  lemma PriorInAnyOrder(nodes: NodeMap, rule: nat, design: seq<nat>, assocs: seq<Association>,
                        history: seq<Teaching>, hypo: nat, evids: seq<nat>, order: seq<nat>)
    requires hypo in design && AllWellFormed(history) && AllNamed(assocs, Range(evids))
    requires Distinct(evids) && Distinct(order) && Range(order) == Range(evids)
    requires forall t :: t in history && t.rule == rule ==> t.hypos == Range(design) && Range(evids) <= t.status.Keys
    ensures PriorCount(TaughtAll(Built(nodes, rule, design, assocs), history), rule, hypo, order)
         == |evids| * (1 + TimesTrue(history, rule, hypo))
  {
    DistinctLength(order);
    DistinctLength(evids);
    PriorOnDesign(nodes, rule, design, assocs, history, hypo, order);
  }

  lemma DesignScalesPriors(hypos: seq<HypoTally>, evids: seq<nat>, nodes: NodeMap, rule: nat, design: seq<nat>,
                           assocs: seq<Association>, history: seq<Teaching>, orders: seq<seq<nat>>)
    requires AllWellFormed(history) && CountedOnDesign(hypos, nodes, rule, design, assocs, history, orders)
    requires Range(HypoIds(hypos)) == Range(design) && Distinct(evids)
    requires OrdersOf(orders, evids) && AllNamed(assocs, Range(evids))
    requires forall t :: t in history && t.rule == rule ==> t.hypos == Range(design) && Range(evids) <= t.status.Keys
    ensures ScaledPriors(hypos, history, rule, |evids|)
  {
    forall i | 0 <= i < |hypos|
      ensures hypos[i].priorCount == |evids| * (1 + TimesTrue(history, rule, hypos[i].id))
    {
      assert HypoIds(hypos)[i] in Range(HypoIds(hypos));
      PriorInAnyOrder(nodes, rule, design, assocs, history, hypos[i].id, evids, orders[i]);
    }
  }

  /** On a knowledge base grown from its design by verified cases, a new case on a rule
      comes into being exactly as long as all its hypotheses and items can be looked up and the
      first hypothesis walked has explained enough cases: with n hypotheses and T cases taught,
      t of them its own, n + T may not exceed 1000 * (1 + t). */
  lemma CreatedOnDesignIff(known: Known, rule: nat, hasDiagnostics: bool,
                           hypos: seq<HypoTally>, evids: seq<nat>, sumPrior: int, nodes: NodeMap, design: seq<nat>,
                           assocs: seq<Association>, history: seq<Teaching>, orders: seq<seq<nat>>)
    requires Fresh(hypos, evids, sumPrior) && hypos != [] && evids != [] && sumPrior >= 0
    requires AllWellFormed(history) && CountedOnDesign(hypos, nodes, rule, design, assocs, history, orders)
    requires Range(HypoIds(hypos)) == Range(design)
    requires OrdersOf(orders, evids) && AllNamed(assocs, Range(evids))
    requires forall t :: t in history && t.rule == rule ==> t.hypos == Range(design) && Range(evids) <= t.status.Keys
    ensures Started(known, rule, hasDiagnostics, hypos, evids, sumPrior).Created? <==>
              && AllKnown(known, hypos, evids)
              && |hypos| + TimesTaught(history, rule) <= 1000 * (1 + TimesTrue(history, rule, hypos[0].id))
  {
    DesignScalesPriors(hypos, evids, nodes, rule, design, assocs, history, orders);
    ScaledThresholdIff(hypos, history, rule, |evids|);
    CreatedIff(known, rule, hasDiagnostics, hypos, evids, sumPrior);
  }

  lemma ScaledThresholdIff(hypos: seq<HypoTally>, history: seq<Teaching>, rule: nat, m: nat)
    requires hypos != [] && m > 0 && ScaledPriors(hypos, history, rule, m)
    requires AllWellFormed(history) && Distinct(HypoIds(hypos))
    requires forall t :: t in history && t.rule == rule ==> t.hypos == Range(HypoIds(hypos))
    ensures SumPriors(hypos) > 0
    ensures SumPriors(hypos) <= 1000 * hypos[0].priorCount
       <==> |hypos| + TimesTaught(history, rule) <= 1000 * (1 + TimesTrue(history, rule, hypos[0].id))
  {
    SumOfScaledPriors(hypos, history, rule, m);
    TeachingsAreDividedAmongHypos(history, rule, HypoIds(hypos));
    ScaledOut(m, |hypos| + TimesTaught(history, rule), 1 + TimesTrue(history, rule, hypos[0].id));
  }

  /** A common positive factor decides nothing. */
  lemma ScaledOut(m: int, total: int, c: int)
    requires m > 0 && total > 0
    ensures m * total > 0 && (m * total <= 1000 * (m * c) <==> total <= 1000 * c)
  {
    MulMonotone(m, 1, total);
    assert 1000 * (m * c) == m * (1000 * c);
    if total <= 1000 * c {
      MulMonotone(m, total, 1000 * c);
    } else {
      MulMonotone(m, 1000 * c + 1, total);
      MulSum(m, 1000 * c, 1);
    }
  }
}
