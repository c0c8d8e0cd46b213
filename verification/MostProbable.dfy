/** The hypothesis a case reports as most probable (its MAPP hypothesis), from the case's
    creation on. */
module MostProbable {
  import opened Nodes
  import opened Tallies
  import opened OccurrenceTable
  import opened Bayes
  import opened Dialogue
  import opened DialogueSafety

  function Accums(hypos: seq<HypoTally>): (r: seq<int>)
    ensures |r| == |hypos|
  {
    seq(|hypos|, i requires 0 <= i < |hypos| => hypos[i].accumPost)
  }

  function Priors(hypos: seq<HypoTally>): (r: seq<int>)
    ensures |r| == |hypos|
  {
    seq(|hypos|, i requires 0 <= i < |hypos| => hypos[i].priorCount)
  }

  function PostProbs(hypos: seq<HypoTally>): (r: seq<int>)
    ensures |r| == |hypos|
  {
    seq(|hypos|, i requires 0 <= i < |hypos| => hypos[i].postProb)
  }

  function PriorProbs(hypos: seq<HypoTally>): (r: seq<int>)
    ensures |r| == |hypos|
  {
    seq(|hypos|, i requires 0 <= i < |hypos| => hypos[i].priorProb)
  }

  lemma {:induction false} AccumsAddUp(hypos: seq<HypoTally>)
    ensures Sum(Accums(hypos)) == SumAccum(hypos)
  {
    if hypos != [] {
      AccumsAddUp(hypos[..|hypos| - 1]);
      assert Accums(hypos)[..|hypos| - 1] == Accums(hypos[..|hypos| - 1]);
    }
  }

  lemma {:induction false} PriorsAddUp(hypos: seq<HypoTally>)
    ensures Sum(Priors(hypos)) == SumPriors(hypos)
  {
    if hypos != [] {
      PriorsAddUp(hypos[..|hypos| - 1]);
      assert Priors(hypos)[..|hypos| - 1] == Priors(hypos[..|hypos| - 1]);
    }
  }

  /** Probabilities that account for all but truncated fractions of a per-mille. */
  predicate AreProbabilities(probs: seq<int>) {
    (forall i :: 0 <= i < |probs| ==> 0 <= probs[i] <= 1000) && 1000 - |probs| < Sum(probs) <= 1000
  }

  // ----- After an evidence item is evaluated -----

  /** The counts met by a definite answer, hypothesis by hypothesis. */
  function TruesMet(s: CaseState, nodes: NodeMap, value: nat): (r: seq<int>)
    requires value < NUM_ROWS
    ensures |r| == |s.inference.hypos|
  {
    TruesAt(s.inference.hypos, nodes, s.rule, s.evidence.up, value)
  }

  function FalsesMet(s: CaseState, nodes: NodeMap, value: nat): (r: seq<int>)
    requires value < NUM_ROWS
    ensures |r| == |s.inference.hypos|
  {
    FalsesAt(s.inference.hypos, nodes, s.rule, s.evidence.up, value)
  }

  predicate IsNovelTo(s: CaseState, nodes: NodeMap, value: nat)
    requires value < NUM_ROWS
  {
    IsNovel(s.inference.hypos, TruesMet(s, nodes, value))
  }

  /** One hypothesis holds all the counts there are. */
  predicate HoldsAll(f: Inference, d: nat) {
    && d < |f.hypos| && f.mapp == f.hypos[d].id && f.mappAt100pct && Alive(f.hypos[d])
    && forall i :: 0 <= i < |f.hypos| && i != d ==> f.hypos[i].accumPost == 0
  }

  /** The inference `f` carried to `p` by evidence, as the rest of the argument needs it. */
  ghost predicate Carried(f: Inference, trues: seq<int>, falses: seq<int>, p: Inference) {
    && CountsSound(f.hypos, trues, falses) && |p.hypos| == |f.hypos|
    && InferenceSound(p) && !p.noEvidence && HypoIds(p.hypos) == HypoIds(f.hypos)
    && (SumAccum(p.hypos) == p.sumAccum <==> !IsNovel(f.hypos, trues) || SumAccum(f.hypos) == 0)
    && var d := FirstDecisive(f.hypos, trues, 0);
       if !IsNovel(f.hypos, trues) && d < |f.hypos| then HoldsAll(p, d)
       else p.mapp == f.mapp && p.mappAt100pct == f.mappAt100pct
  }

  lemma EvidenceCarries(f: Inference, trues: seq<int>, falses: seq<int>)
    requires InferenceSound(f) && CountsSound(f.hypos, trues, falses)
    ensures Carried(f, trues, falses, EvidenceApplied(f, trues, falses))
  {
    EvidenceAppliedSound(f, trues, falses);
    PosteriorIsDistributionIff(f.hypos, trues, falses, f.numAlive, f.mapp, f.mappAt100pct);
    var p := EvidenceApplied(f, trues, falses);
    var d := FirstDecisive(f.hypos, trues, 0);
    if !IsNovel(f.hypos, trues) && d < |f.hypos| {
      CrownedIsLone(f.hypos, trues, falses, d);
      assert HypoIds(p.hypos)[d] == HypoIds(f.hypos)[d];
    }
  }

  /** What updating does to an inference with evidence. */
  lemma UpdatedByScan(p: Inference)
    requires InferenceSound(p) && !p.noEvidence
    ensures var g := Updated(p, false);
            && HypoIds(g.hypos) == HypoIds(p.hypos)
            && PostProbs(g.hypos) == PerMilles(Accums(p.hypos), p.sumAccum)
            && Accums(g.hypos) == Accums(p.hypos)
            && g.mapp == Scanned(HypoIds(p.hypos), Accums(p.hypos), PerMilles(Accums(p.hypos), p.sumAccum),
                                 p.mapp, p.mappAt100pct, |p.hypos|).mapp
  {
    assert Counts(p) == Accums(p.hypos);
    UpdatedSound(p, false);
  }

  lemma ProbabilitiesOfDistribution(p: Inference)
    requires InferenceSound(p) && SumAccum(p.hypos) == p.sumAccum && p.sumAccum > 0
    ensures AreProbabilities(PerMilles(Accums(p.hypos), p.sumAccum))
    ensures forall i :: 0 <= i < |p.hypos| && !Alive(p.hypos[i]) ==> PerMilles(Accums(p.hypos), p.sumAccum)[i] == 0
  {
    AccumsAddUp(p.hypos);
    PerMillesOfADistribution(Accums(p.hypos), p.sumAccum);
    assert forall i :: 0 <= i < |p.hypos| && !Alive(p.hypos[i]) ==> Accums(p.hypos)[i] == 0;
  }

  lemma MaximalByScan(p: Inference)
    requires InferenceSound(p) && !p.noEvidence && SumAccum(p.hypos) == p.sumAccum && !p.mappAt100pct
    ensures HasMaximalCount(HypoIds(p.hypos), Accums(p.hypos), Updated(p, false).mapp)
  {
    UpdatedByScan(p);
    AccumsAddUp(p.hypos);
    ScanFindsMaximalCount(HypoIds(p.hypos), Accums(p.hypos), p.sumAccum, p.mapp);
  }

  lemma MaximalWhenAlone(p: Inference, d: nat)
    requires InferenceSound(p) && HoldsAll(p, d)
    ensures HasMaximalCount(HypoIds(p.hypos), Accums(p.hypos), Updated(p, false).mapp)
  {
    UpdatedSound(p, false);
    assert HypoIds(p.hypos)[d] == p.mapp;
    assert forall i :: 0 <= i < |p.hypos| ==> Accums(p.hypos)[i] <= Accums(p.hypos)[d];
  }

  lemma MaximalAfterEvidence(f: Inference, trues: seq<int>, falses: seq<int>, p: Inference)
    requires Carried(f, trues, falses, p) && !f.mappAt100pct
    requires !IsNovel(f.hypos, trues) || SumAccum(f.hypos) == 0
    ensures HasMaximalCount(HypoIds(p.hypos), Accums(p.hypos), Updated(p, false).mapp)
  {
    var d := FirstDecisive(f.hypos, trues, 0);
    if !IsNovel(f.hypos, trues) && d < |f.hypos| {
      MaximalWhenAlone(p, d);
    } else {
      MaximalByScan(p);
    }
  }

  /** An answer as the inference sees it. */
  lemma InferredIsUpdated(s: CaseState, nodes: NodeMap, value: nat)
    requires Sound(s) && NonNegative(nodes) && IsAsking(s) && value < ROW_UNEVALUATED
    ensures InferenceSound(s.inference)
    ensures var p := EvidenceApplied(s.inference, TruesMet(s, nodes, value), FalsesMet(s, nodes, value));
            && Carried(s.inference, TruesMet(s, nodes, value), FalsesMet(s, nodes, value), p)
            && Inferred(s, nodes, value) == Updated(p, false)
  {
    CountsFromNodes(s.inference.hypos, nodes, s.rule, s.evidence.up, value);
    EvidenceCarries(s.inference, TruesMet(s, nodes, value), FalsesMet(s, nodes, value));
  }

  /** Unless the value is novel after others have been evaluated, the posteriors are
      probabilities, dead hypotheses have none, and - if the case was not already at
      100% - the hypothesis reported has a count no other exceeds. */
  lemma PosteriorsAndMapp(s: CaseState, nodes: NodeMap, value: nat)
    requires Sound(s) && NonNegative(nodes) && IsAsking(s) && value < ROW_UNEVALUATED
    requires !IsNovelTo(s, nodes, value) || s.inference.noEvidence
    ensures var g := Inferred(s, nodes, value);
            && AreProbabilities(PostProbs(g.hypos))
            && (forall i :: 0 <= i < |g.hypos| && !Alive(g.hypos[i]) ==> g.hypos[i].postProb == 0)
            && (!s.inference.mappAt100pct ==> HasMaximalCount(HypoIds(g.hypos), Accums(g.hypos), g.mapp))
  {
    var f, trues, falses := s.inference, TruesMet(s, nodes, value), FalsesMet(s, nodes, value);
    InferredIsUpdated(s, nodes, value);
    if f.noEvidence {
      NoAccumNoSum(f.hypos);
    }
    var p := EvidenceApplied(f, trues, falses);
    PosteriorsOf(f, trues, falses, p);
  }

  lemma PosteriorsOf(f: Inference, trues: seq<int>, falses: seq<int>, p: Inference)
    requires Carried(f, trues, falses, p)
    requires !IsNovel(f.hypos, trues) || SumAccum(f.hypos) == 0
    ensures var g := Updated(p, false);
            && AreProbabilities(PostProbs(g.hypos))
            && (forall i :: 0 <= i < |g.hypos| && !Alive(g.hypos[i]) ==> g.hypos[i].postProb == 0)
            && (!f.mappAt100pct ==> HasMaximalCount(HypoIds(g.hypos), Accums(g.hypos), g.mapp))
  {
    UpdatedByScan(p);
    ProbabilitiesOfDistribution(p);
    var g := Updated(p, false);
    assert forall i :: 0 <= i < |g.hypos| ==> g.hypos[i].postProb == PostProbs(g.hypos)[i];
    if !f.mappAt100pct {
      MaximalAfterEvidence(f, trues, falses, p);
    }
  }

  // ----- When the posteriors are probabilities -----

  /** The probabilities before their conversion to 16 bits. */
  function Quotients(counts: seq<int>, total: int): seq<int>
    requires total > 0
  {
    seq(|counts|, i requires 0 <= i < |counts| => counts[i] * 1000 / total)
  }

  lemma QuotientThatFits(count: int, total: int)
    requires 0 <= count && total > 0 && 1000 * count < 32768 * total
    ensures PerMille(count, total) == count * 1000 / total
  {
    var q := count * 1000 / total;
    QuotientBounds(count * 1000, total);
    assert total * (q + 1) == total * q + total;
    LessByMul(total, 0, q + 1);
    LessByMul(total, q, 32768);
  }

  lemma QuotientTooWide(count: int, total: int)
    requires 0 <= count && total > 0 && 1000 * count >= 32768 * total
    ensures PerMille(count, total) != count * 1000 / total
  {
    var q := count * 1000 / total;
    QuotientBounds(count * 1000, total);
    assert total * (q + 1) == total * q + total;
    if q < 32768 {
      MulMonotone(total, q + 1, 32768);
    }
  }

  lemma QuotientsThatFit(counts: seq<int>, total: int)
    requires total > 0 && forall i :: 0 <= i < |counts| ==> 0 <= counts[i] && 1000 * counts[i] < 32768 * total
    ensures PerMilles(counts, total) == Quotients(counts, total)
  {
    forall i | 0 <= i < |counts|
      ensures PerMilles(counts, total)[i] == Quotients(counts, total)[i]
    {
      QuotientThatFits(counts[i], total);
    }
  }

  lemma {:induction false} SumOfQuotients(counts: seq<int>, total: int)
    requires total > 0
    ensures 1000 * Sum(counts) <= total * Sum(Quotients(counts, total)) + (total - 1) * |counts|
  {
    if counts != [] {
      var front, last := counts[..|counts| - 1], counts[|counts| - 1];
      SumOfQuotients(front, total);
      QuotientBounds(last * 1000, total);
      assert Quotients(counts, total)[..|counts| - 1] == Quotients(front, total);
      MulSum(total, Sum(Quotients(front, total)), last * 1000 / total);
      MulSum(total - 1, |front|, 1);
    }
  }

  const MAX_HYPOS: nat := 24    // as many as a rule can have on file

  /** More counts than the divisor make for more than one. */
  lemma TooMuchForOne(counts: seq<int>, total: int)
    requires 0 < total <= |counts| <= MAX_HYPOS && Sum(counts) > total
    ensures !AreProbabilities(Quotients(counts, total))
  {
    SumOfQuotients(counts, total);
    MoreThanAll(total, Sum(counts), Sum(Quotients(counts, total)), |counts|);
  }

  lemma MoreThanAll(total: int, sum: int, perMilles: int, n: int)
    requires 0 < total <= n <= MAX_HYPOS && total < sum
    requires 1000 * sum <= total * perMilles + (total - 1) * n
    ensures perMilles > 1000
  {
    MulMonotone(total - 1, n, MAX_HYPOS);
    if perMilles <= 1000 {
      MulMonotone(total, perMilles, 1000);
    }
  }

  lemma {:induction false} AliveAtMostAll(hypos: seq<HypoTally>)
    ensures AliveCount(hypos) <= |hypos|
  {
    if hypos != [] {
      AliveAtMostAll(hypos[..|hypos| - 1]);
    }
  }

  lemma NovelIsTooMuch(f: Inference, trues: seq<int>, falses: seq<int>, p: Inference)
    requires InferenceSound(f) && Carried(f, trues, falses, p) && p == EvidenceApplied(f, trues, falses)
    requires IsNovel(f.hypos, trues) && SumAccum(f.hypos) != 0 && |f.hypos| <= MAX_HYPOS
    ensures !AreProbabilities(Quotients(Accums(p.hypos), p.sumAccum))
  {
    NovelPassSum(f.hypos);
    AccumAtMostSum(f.hypos, 0);
    AliveAtMostAll(f.hypos);
    AccumsAddUp(p.hypos);
    TooMuchForOne(Accums(p.hypos), p.sumAccum);
  }

  /** A count more of each hypothesis would still fit the type the probabilities are kept in:
      it is less than 32.768 times the hypotheses alive. */
  predicate RoomForOneMore(hypos: seq<HypoTally>) {
    forall i :: 0 <= i < |hypos| ==> 1000 * (hypos[i].accumPost + 1) < 32768 * AliveCount(hypos)
  }

  lemma DistributionFits(p: Inference)
    requires InferenceSound(p) && SumAccum(p.hypos) == p.sumAccum && p.sumAccum > 0
    ensures PerMilles(Accums(p.hypos), p.sumAccum) == Quotients(Accums(p.hypos), p.sumAccum)
  {
    AccumsAddUp(p.hypos);
    forall i | 0 <= i < |p.hypos|
      ensures 0 <= Accums(p.hypos)[i] <= p.sumAccum
    {
      EachWithinSum(Accums(p.hypos), i);
    }
    QuotientsThatFit(Accums(p.hypos), p.sumAccum);
  }

  lemma NovelFits(f: Inference, trues: seq<int>, falses: seq<int>, p: Inference)
    requires InferenceSound(f) && Carried(f, trues, falses, p) && p == EvidenceApplied(f, trues, falses)
    requires IsNovel(f.hypos, trues) && RoomForOneMore(f.hypos)
    ensures PerMilles(Accums(p.hypos), p.sumAccum) == Quotients(Accums(p.hypos), p.sumAccum)
  {
    NovelPassSum(f.hypos);
    forall i | 0 <= i < |p.hypos|
      ensures 0 <= Accums(p.hypos)[i] && 1000 * Accums(p.hypos)[i] < 32768 * p.sumAccum
    {
      assert p.hypos[i].accumPost <= f.hypos[i].accumPost + 1;
    }
    QuotientsThatFit(Accums(p.hypos), p.sumAccum);
  }

  lemma NovelOverflows(f: Inference, trues: seq<int>, falses: seq<int>, p: Inference)
    requires InferenceSound(f) && Carried(f, trues, falses, p) && p == EvidenceApplied(f, trues, falses)
    requires IsNovel(f.hypos, trues) && !RoomForOneMore(f.hypos)
    ensures PerMilles(Accums(p.hypos), p.sumAccum) != Quotients(Accums(p.hypos), p.sumAccum)
  {
    var i :| 0 <= i < |f.hypos| && 1000 * (f.hypos[i].accumPost + 1) >= 32768 * AliveCount(f.hypos);
    assert Alive(f.hypos[i]);
    assert Accums(p.hypos)[i] == f.hypos[i].accumPost + 1;
    QuotientTooWide(Accums(p.hypos)[i], p.sumAccum);
    assert PerMilles(Accums(p.hypos), p.sumAccum)[i] != Quotients(Accums(p.hypos), p.sumAccum)[i];
  }

  /** After an answer about an evidence item the posteriors are probabilities - each in range,
      adding up to one but for what truncation loses - exactly if the value is not novel or
      nothing had been accumulated before.  That is of the quotients; they are what is kept of
      them in 16 bits exactly unless the value is novel and a hypothesis has too many counts
      before it.  A rule has at most 24 hypotheses on file. */
  lemma PosteriorsAreProbabilitiesIff(s: CaseState, nodes: NodeMap, value: nat)
    requires Sound(s) && NonNegative(nodes) && IsAsking(s) && value < ROW_UNEVALUATED
    requires |s.inference.hypos| <= MAX_HYPOS
    ensures var g := Inferred(s, nodes, value);
            && g.sumAccum > 0
            && (AreProbabilities(Quotients(Accums(g.hypos), g.sumAccum))
                <==> !IsNovelTo(s, nodes, value) || SumAccum(s.inference.hypos) == 0)
            && (PostProbs(g.hypos) == Quotients(Accums(g.hypos), g.sumAccum)
                <==> !IsNovelTo(s, nodes, value) || RoomForOneMore(s.inference.hypos))
  {
    var f, trues, falses := s.inference, TruesMet(s, nodes, value), FalsesMet(s, nodes, value);
    InferredIsUpdated(s, nodes, value);
    var p := EvidenceApplied(f, trues, falses);
    UpdatedByScan(p);
    assert Inferred(s, nodes, value).sumAccum == p.sumAccum;
    if IsNovel(f.hypos, trues) {
      if RoomForOneMore(f.hypos) {
        NovelFits(f, trues, falses, p);
      } else {
        NovelOverflows(f, trues, falses, p);
      }
    }
    if IsNovel(f.hypos, trues) && SumAccum(f.hypos) != 0 {
      NovelIsTooMuch(f, trues, falses, p);
    } else {
      ProbabilitiesOfDistribution(p);
      DistributionFits(p);
    }
  }

  // ----- Is the reported hypothesis alive? -----

  predicate IsAliveIn(hypos: seq<HypoTally>, id: nat) {
    exists i :: 0 <= i < |hypos| && hypos[i].id == id && Alive(hypos[i])
  }

  /** The scan can only move on to a hypothesis that has counts. */
  lemma {:induction false} ScanKeepsSupport(ids: seq<nat>, counts: seq<int>, total: int,
                                            mapp: nat, at100: bool, upTo: nat)
    requires total > 0 && |ids| == |counts| && upTo <= |ids| && mapp in ids
    requires forall i :: 0 <= i < |ids| ==> 0 <= counts[i]
    ensures var s := Scanned(ids, counts, PerMilles(counts, total), mapp, at100, upTo);
            0 <= s.best && (s.mapp == mapp || exists j :: 0 <= j < |ids| && ids[j] == s.mapp && counts[j] > 0)
  {
    if upTo > 0 {
      ScanKeepsSupport(ids, counts, total, mapp, at100, upTo - 1);
      PerMilleBounds(0, total);
      var i := upTo - 1;
      var s := Scanned(ids, counts, PerMilles(counts, total), mapp, at100, i);
      var s' := ScanStep(s, ids, counts, PerMilles(counts, total), i);
      if s'.mapp != s.mapp {
        assert ids[i] == s'.mapp && counts[i] > 0;
      }
    }
  }

  lemma AliveById(hypos: seq<HypoTally>, i: nat)
    requires Distinct(HypoIds(hypos)) && i < |hypos|
    ensures IsAliveIn(hypos, hypos[i].id) <==> Alive(hypos[i])
  {
    var ids := HypoIds(hypos);
    assert forall j :: 0 <= j < |hypos| && j != i ==> ids[j] != ids[i];
  }

  lemma AliveAfterUpdate(p: Inference, id: nat)
    requires InferenceSound(p)
    ensures IsAliveIn(Updated(p, false).hypos, id) <==> IsAliveIn(p.hypos, id)
  {
    var g := Updated(p, false);
    assert forall i :: 0 <= i < |p.hypos| ==> g.hypos[i].id == p.hypos[i].id && Alive(g.hypos[i]) == Alive(p.hypos[i]);
  }

  lemma SupportedIsAlive(p: Inference, id: nat, j: nat)
    requires InferenceSound(p) && j < |p.hypos| && HypoIds(p.hypos)[j] == id && Accums(p.hypos)[j] > 0
    ensures IsAliveIn(p.hypos, id)
  {
    assert p.hypos[j].id == id && Alive(p.hypos[j]);
  }

  /** The answer rules out the hypothesis standing at 100% without deciding for another. */
  predicate RulesOut(f: Inference, trues: seq<int>, falses: seq<int>)
    requires |f.hypos| == |trues| == |falses|
  {
    && f.mappAt100pct && !IsNovel(f.hypos, trues) && FirstDecisive(f.hypos, trues, 0) == |f.hypos|
    && var i := IndexOf(HypoIds(f.hypos), f.mapp);
       i < |f.hypos| && trues[i] == 0 && falses[i] != 0
  }

  /** Standing at 100%, the candidate dies exactly when it is ruled out. */
  lemma StandingCandidate(f: Inference, trues: seq<int>, falses: seq<int>)
    requires InferenceSound(f) && CountsSound(f.hypos, trues, falses) && f.mappAt100pct
    requires IsAliveIn(f.hypos, f.mapp)
    ensures var p := EvidenceApplied(f, trues, falses);
            IsAliveIn(p.hypos, p.mapp) <==> !RulesOut(f, trues, falses)
  {
    EvidenceCarries(f, trues, falses);
    var p := EvidenceApplied(f, trues, falses);
    var d := FirstDecisive(f.hypos, trues, 0);
    if !IsNovel(f.hypos, trues) && d < |f.hypos| {
      assert p.hypos[d].id == p.mapp && Alive(p.hypos[d]);
    } else {
      var i := IndexOf(HypoIds(f.hypos), f.mapp);
      AliveById(f.hypos, i);
      assert HypoIds(p.hypos)[i] == f.mapp;
      AliveById(p.hypos, i);
    }
  }

  /** Below 100%, the scan ends on a hypothesis that is alive. */
  lemma ScannedCandidate(f: Inference, trues: seq<int>, falses: seq<int>, p: Inference)
    requires Carried(f, trues, falses, p) && !f.mappAt100pct
    requires IsNovel(f.hypos, trues) ==> IsAliveIn(p.hypos, f.mapp)
    ensures IsAliveIn(p.hypos, Updated(p, false).mapp)
  {
    var id := Updated(p, false).mapp;
    if IsNovel(f.hypos, trues) {
      UpdatedByScan(p);
      ScanKeepsSupport(HypoIds(p.hypos), Accums(p.hypos), p.sumAccum, p.mapp, p.mappAt100pct, |p.hypos|);
      if id != p.mapp {
        var j :| 0 <= j < |p.hypos| && HypoIds(p.hypos)[j] == id && Accums(p.hypos)[j] > 0;
        SupportedIsAlive(p, id, j);
      }
    } else {
      MaximalAfterEvidence(f, trues, falses, p);
      var j :| 0 <= j < |p.hypos| && HypoIds(p.hypos)[j] == id
               && forall i :: 0 <= i < |p.hypos| ==> Accums(p.hypos)[i] <= Accums(p.hypos)[j];
      MaximumIsSupported(p.hypos, j);
      SupportedIsAlive(p, id, j);
    }
  }

  lemma MaximumIsSupported(hypos: seq<HypoTally>, j: nat)
    requires j < |hypos| && SumAccum(hypos) > 0
    requires forall i :: 0 <= i < |hypos| ==> 0 <= hypos[i].accumPost && Accums(hypos)[i] <= Accums(hypos)[j]
    ensures Accums(hypos)[j] > 0
  {
    if Accums(hypos)[j] == 0 {
      assert forall i :: 0 <= i < |hypos| ==> Accums(hypos)[i] == hypos[i].accumPost;
      NoAccumNoSum(hypos);
    }
  }

  lemma NovelKillsNone(f: Inference, trues: seq<int>, falses: seq<int>)
    requires |f.hypos| == |trues| == |falses| && IsNovel(f.hypos, trues) && IsAliveIn(f.hypos, f.mapp)
    ensures IsAliveIn(EvidenceApplied(f, trues, falses).hypos, f.mapp)
  {
    var i :| 0 <= i < |f.hypos| && f.hypos[i].id == f.mapp && Alive(f.hypos[i]);
    var p := EvidenceApplied(f, trues, falses);
    assert p.hypos[i].id == f.mapp && Alive(p.hypos[i]);
  }

  /** The solution a case offers stays one it has not itself ruled out, except exactly when
      a solution standing at 100% is ruled out by an answer that decides for no other:
      the case then goes on reporting the dead hypothesis. */
  lemma SolutionIsAliveIff(s: CaseState, nodes: NodeMap, value: nat)
    requires Sound(s) && NonNegative(nodes) && IsAsking(s) && value < ROW_UNEVALUATED
    requires IsAliveIn(s.inference.hypos, s.inference.mapp)
    ensures var g := Inferred(s, nodes, value);
            IsAliveIn(g.hypos, g.mapp) <==>
              !RulesOut(s.inference, TruesMet(s, nodes, value), FalsesMet(s, nodes, value))
  {
    var f, trues, falses := s.inference, TruesMet(s, nodes, value), FalsesMet(s, nodes, value);
    InferredIsUpdated(s, nodes, value);
    SolutionOf(f, trues, falses);
  }

  lemma SolutionOf(f: Inference, trues: seq<int>, falses: seq<int>)
    requires InferenceSound(f) && CountsSound(f.hypos, trues, falses) && IsAliveIn(f.hypos, f.mapp)
    ensures var p := EvidenceApplied(f, trues, falses);
            && InferenceSound(p)
            && var g := Updated(p, false);
               IsAliveIn(g.hypos, g.mapp) <==> !RulesOut(f, trues, falses)
  {
    EvidenceCarries(f, trues, falses);
    var p := EvidenceApplied(f, trues, falses);
    AliveAfterUpdate(p, Updated(p, false).mapp);
    if f.mappAt100pct {
      StandingCandidate(f, trues, falses);
      EvidenceAppliedSound(f, trues, falses);
      UpdatedSound(p, false);
    } else {
      if IsNovel(f.hypos, trues) {
        NovelKillsNone(f, trues, falses);
      }
      ScannedCandidate(f, trues, falses, p);
    }
  }
}
