/** Bayes-like counting over the hypotheses of a case: what one evaluated evidence item
    does to their tallies, how tallies become per-mille probabilities, and which
    hypothesis comes out most probable.

    `trues` and `falses` give, hypothesis by hypothesis, the knowledge base's counts of
    it being true and false jointly with the evidence value just given. */
module Bayes {
  import opened Nodes
  import opened Tallies

  predicate Alive(h: HypoTally) {
    h.status != STATUS_DEAD
  }

  function Killed(h: HypoTally): HypoTally {
    h.(status := STATUS_DEAD, accumPost := 0)
  }

  function AliveCount(hypos: seq<HypoTally>): nat {
    if hypos == [] then 0
    else AliveCount(hypos[..|hypos| - 1]) + if Alive(hypos[|hypos| - 1]) then 1 else 0
  }

  function SumAccum(hypos: seq<HypoTally>): int {
    if hypos == [] then 0 else SumAccum(hypos[..|hypos| - 1]) + hypos[|hypos| - 1].accumPost
  }

  // ----- One evaluated evidence item -----

  /** Prior counts of the value given, joint to each hypothesis still alive being true. */
  function Weight(hypos: seq<HypoTally>, trues: seq<int>, upTo: nat): int
    requires |hypos| == |trues| && upTo <= |hypos|
  {
    if upTo == 0 then 0
    else Weight(hypos, trues, upTo - 1) + if Alive(hypos[upTo - 1]) then trues[upTo - 1] else 0
  }

  predicate IsNovel(hypos: seq<HypoTally>, trues: seq<int>)
    requires |hypos| == |trues|
  {
    Weight(hypos, trues, |hypos|) == 0
  }

  /** Every time the evidence had this value, this hypothesis was the true one. */
  predicate IsDecisive(hypos: seq<HypoTally>, trues: seq<int>, i: nat)
    requires |hypos| == |trues| && i < |hypos|
  {
    Alive(hypos[i]) && trues[i] > 0 && trues[i] == Weight(hypos, trues, |hypos|)
  }

  /** The first decisive hypothesis at or after `from`, or the number of hypotheses. */
  function FirstDecisive(hypos: seq<HypoTally>, trues: seq<int>, from: nat): (d: nat)
    requires |hypos| == |trues| && from <= |hypos|
    ensures from <= d <= |hypos|
    ensures d < |hypos| ==> IsDecisive(hypos, trues, d)
    ensures forall i :: from <= i < d ==> !IsDecisive(hypos, trues, i)
    decreases |hypos| - from
  {
    if from == |hypos| || IsDecisive(hypos, trues, from) then from else FirstDecisive(hypos, trues, from + 1)
  }

  predicate Kills(h: HypoTally, countTrue: int, countFalse: int) {
    Alive(h) && countTrue == 0 && countFalse != 0
  }

  function Weighed(h: HypoTally, countTrue: int, countFalse: int): HypoTally {
    if !Alive(h) then h
    else if Kills(h, countTrue, countFalse) then Killed(h)
    else h.(accumPost := h.accumPost + countTrue)
  }

  /** The hypotheses before `upTo` weighed against the evidence, the others as they were. */
  function Pass(hypos: seq<HypoTally>, trues: seq<int>, falses: seq<int>, upTo: nat): (r: seq<HypoTally>)
    requires |hypos| == |trues| == |falses| && upTo <= |hypos|
    ensures |r| == |hypos|
    ensures forall i :: 0 <= i < |r| ==> r[i] == if i < upTo then Weighed(hypos[i], trues[i], falses[i]) else hypos[i]
  {
    seq(|hypos|, i requires 0 <= i < |hypos| => if i < upTo then Weighed(hypos[i], trues[i], falses[i]) else hypos[i])
  }

  function NumKilled(hypos: seq<HypoTally>, trues: seq<int>, falses: seq<int>, upTo: nat): nat
    requires |hypos| == |trues| == |falses| && upTo <= |hypos|
  {
    if upTo == 0 then 0
    else NumKilled(hypos, trues, falses, upTo - 1)
         + if Kills(hypos[upTo - 1], trues[upTo - 1], falses[upTo - 1]) then 1 else 0
  }

  /** A value never met with any live hypothesis being true: one count to each of them. */
  function NovelPass(hypos: seq<HypoTally>, upTo: nat): (r: seq<HypoTally>)
    requires upTo <= |hypos|
    ensures |r| == |hypos|
    ensures forall i :: 0 <= i < |r| ==>
              r[i] == if i < upTo && Alive(hypos[i]) then hypos[i].(accumPost := hypos[i].accumPost + 1) else hypos[i]
  {
    seq(|hypos|, i requires 0 <= i < |hypos| =>
      if i < upTo && Alive(hypos[i]) then hypos[i].(accumPost := hypos[i].accumPost + 1) else hypos[i])
  }

  /** One hypothesis made the likely one and every open hypothesis before `upTo` killed. */
  function Crowned(hypos: seq<HypoTally>, d: nat, countTrue: int, upTo: nat): (r: seq<HypoTally>)
    requires d < |hypos| && upTo <= |hypos|
    ensures |r| == |hypos|
    ensures forall i :: 0 <= i < |r| ==>
              r[i] == if i == d then hypos[d].(status := STATUS_LIKELY, accumPost := hypos[d].accumPost + countTrue)
                      else if i < upTo && hypos[i].status == STATUS_OPEN then Killed(hypos[i]) else hypos[i]
  {
    seq(|hypos|, i requires 0 <= i < |hypos| =>
      if i == d then hypos[d].(status := STATUS_LIKELY, accumPost := hypos[d].accumPost + countTrue)
      else if i < upTo && hypos[i].status == STATUS_OPEN then Killed(hypos[i]) else hypos[i])
  }

  /** The tallies and registers after one evidence item has been evaluated. */
  datatype Posterior = Posterior(hypos: seq<HypoTally>, sumAccum: int, numAlive: int, mapp: nat, mappAt100pct: bool)

  function Applied(hypos: seq<HypoTally>, trues: seq<int>, falses: seq<int>,
                   numAlive: int, mapp: nat, mappAt100pct: bool): (p: Posterior)
    requires |hypos| == |trues| == |falses|
  {
    var n := |hypos|;
    var d := FirstDecisive(hypos, trues, 0);
    if IsNovel(hypos, trues) then
      Posterior(NovelPass(hypos, n), AliveCount(hypos), numAlive, mapp, mappAt100pct)
    else if d < n then
      var crowned := Crowned(Pass(hypos, trues, falses, d), d, trues[d], n);
      Posterior(crowned, crowned[d].accumPost, numAlive - NumKilled(hypos, trues, falses, d), hypos[d].id, true)
    else
      var weighed := Pass(hypos, trues, falses, n);
      Posterior(weighed, SumAccum(weighed), numAlive - NumKilled(hypos, trues, falses, n), mapp, mappAt100pct)
  }

  /** What every step of a dialogue keeps true of the tallies: some hypothesis is alive,
      a dead one has lost its counts, and a likely one stands alone. */
  ghost predicate TalliesSound(hypos: seq<HypoTally>) {
    && AliveCount(hypos) >= 1
    && (forall i :: 0 <= i < |hypos| ==> hypos[i].status <= STATUS_OPEN && 0 <= hypos[i].accumPost)
    && (forall i :: 0 <= i < |hypos| && !Alive(hypos[i]) ==> hypos[i].accumPost == 0)
    && (forall i, j {:trigger hypos[i].status, Alive(hypos[j])} ::
          0 <= i < |hypos| && 0 <= j < |hypos| && i != j && hypos[i].status == STATUS_LIKELY ==> !Alive(hypos[j]))
  }

  ghost predicate CountsSound(hypos: seq<HypoTally>, trues: seq<int>, falses: seq<int>) {
    && |hypos| == |trues| == |falses|
    && forall i :: 0 <= i < |hypos| ==> 0 <= trues[i] && 0 <= falses[i]
  }

  // ----- Sums along the tallies -----

  lemma {:induction false} AliveCountPositive(hypos: seq<HypoTally>, i: nat)
    requires i < |hypos| && Alive(hypos[i])
    ensures AliveCount(hypos) >= 1
  {
    if i < |hypos| - 1 {
      AliveCountPositive(hypos[..|hypos| - 1], i);
    }
  }

  lemma {:induction false} AllAlive(hypos: seq<HypoTally>)
    requires forall i :: 0 <= i < |hypos| ==> Alive(hypos[i])
    ensures AliveCount(hypos) == |hypos|
  {
    if hypos != [] {
      AllAlive(hypos[..|hypos| - 1]);
    }
  }

  lemma {:induction false} AccumAtMostSum(hypos: seq<HypoTally>, i: nat)
    requires i < |hypos| && forall j :: 0 <= j < |hypos| ==> 0 <= hypos[j].accumPost
    ensures 0 <= SumAccum(hypos[..|hypos| - 1]) && hypos[i].accumPost <= SumAccum(hypos)
  {
    var front := hypos[..|hypos| - 1];
    if front != [] {
      AccumAtMostSum(front, if i < |front| then i else 0);
    }
  }

  /** A sum with a single non-zero term. */
  lemma {:induction false} SumOfLone(hypos: seq<HypoTally>, d: nat)
    requires forall i :: 0 <= i < |hypos| && i != d ==> hypos[i].accumPost == 0
    ensures SumAccum(hypos) == if d < |hypos| then hypos[d].accumPost else 0
  {
    if hypos != [] {
      SumOfLone(hypos[..|hypos| - 1], d);
    }
  }

  lemma {:induction false} WeightNonNegative(hypos: seq<HypoTally>, trues: seq<int>, upTo: nat)
    requires |hypos| == |trues| && upTo <= |hypos|
    requires forall j :: 0 <= j < |trues| ==> 0 <= trues[j]
    ensures 0 <= Weight(hypos, trues, upTo)
  {
    if upTo > 0 {
      WeightNonNegative(hypos, trues, upTo - 1);
    }
  }

  lemma {:induction false} WeightZeroIff(hypos: seq<HypoTally>, trues: seq<int>, upTo: nat)
    requires |hypos| == |trues| && upTo <= |hypos| && forall j :: 0 <= j < |trues| ==> 0 <= trues[j]
    ensures Weight(hypos, trues, upTo) == 0 <==> forall i :: 0 <= i < upTo && Alive(hypos[i]) ==> trues[i] == 0
  {
    if upTo > 0 {
      WeightZeroIff(hypos, trues, upTo - 1);
      WeightNonNegative(hypos, trues, upTo - 1);
    }
  }

  /** Evidence that is not novel has some live hypothesis that was true with it. */
  lemma {:induction false} SomeSupported(hypos: seq<HypoTally>, trues: seq<int>, upTo: nat) returns (i: nat)
    requires |hypos| == |trues| && upTo <= |hypos| && Weight(hypos, trues, upTo) > 0
    ensures i < upTo && Alive(hypos[i]) && trues[i] > 0
  {
    if Alive(hypos[upTo - 1]) && trues[upTo - 1] > 0 {
      i := upTo - 1;
    } else {
      i := SomeSupported(hypos, trues, upTo - 1);
    }
  }

  // ----- Evidence never kills every hypothesis -----

  lemma {:induction false} NovelPassSum(hypos: seq<HypoTally>)
    ensures SumAccum(NovelPass(hypos, |hypos|)) == SumAccum(hypos) + AliveCount(hypos)
    ensures AliveCount(NovelPass(hypos, |hypos|)) == AliveCount(hypos)
  {
    if hypos != [] {
      var front := hypos[..|hypos| - 1];
      NovelPassSum(front);
      assert NovelPass(hypos, |hypos|)[..|front|] == NovelPass(front, |front|);
    }
  }

  lemma {:induction false} PassAliveCount(hypos: seq<HypoTally>, trues: seq<int>, falses: seq<int>)
    requires |hypos| == |trues| == |falses|
    ensures AliveCount(Pass(hypos, trues, falses, |hypos|)) + NumKilled(hypos, trues, falses, |hypos|)
         == AliveCount(hypos)
  {
    if hypos != [] {
      var n := |hypos| - 1;
      PassAliveCount(hypos[..n], trues[..n], falses[..n]);
      assert Pass(hypos, trues, falses, |hypos|)[..n] == Pass(hypos[..n], trues[..n], falses[..n], n);
      NumKilledOfPrefix(hypos, trues, falses, n);
    }
  }

  lemma {:induction false} NumKilledOfPrefix(hypos: seq<HypoTally>, trues: seq<int>, falses: seq<int>, n: nat)
    requires |hypos| == |trues| == |falses| && n <= |hypos|
    ensures forall m :: 0 <= m <= n ==>
              NumKilled(hypos[..n], trues[..n], falses[..n], m) == NumKilled(hypos, trues, falses, m)
  {
    forall m | 0 <= m <= n
      ensures NumKilled(hypos[..n], trues[..n], falses[..n], m) == NumKilled(hypos, trues, falses, m)
    {
      NumKilledUpTo(hypos, trues, falses, n, m);
    }
  }

  lemma {:induction false} NumKilledUpTo(hypos: seq<HypoTally>, trues: seq<int>, falses: seq<int>, n: nat, m: nat)
    requires |hypos| == |trues| == |falses| && m <= n <= |hypos|
    ensures NumKilled(hypos[..n], trues[..n], falses[..n], m) == NumKilled(hypos, trues, falses, m)
  {
    if m > 0 {
      NumKilledUpTo(hypos, trues, falses, n, m - 1);
    }
  }

  lemma {:induction false} LoneAliveCount(hypos: seq<HypoTally>, d: nat)
    requires forall i :: 0 <= i < |hypos| && i != d ==> !Alive(hypos[i])
    ensures AliveCount(hypos) <= if d < |hypos| then 1 else 0
  {
    if hypos != [] {
      LoneAliveCount(hypos[..|hypos| - 1], d);
    }
  }

  /** Those killed on the way to a decisive hypothesis leave that hypothesis alive. */
  lemma {:induction false} KilledBefore(hypos: seq<HypoTally>, trues: seq<int>, falses: seq<int>, d: nat)
    requires |hypos| == |trues| == |falses| && d < |hypos| && Alive(hypos[d])
    ensures NumKilled(hypos, trues, falses, d) < AliveCount(hypos)
  {
    KilledAtMostAlive(hypos, trues, falses, d);
    AliveBefore(hypos, d);
  }

  lemma {:induction false} KilledAtMostAlive(hypos: seq<HypoTally>, trues: seq<int>, falses: seq<int>, d: nat)
    requires |hypos| == |trues| == |falses| && d <= |hypos|
    ensures NumKilled(hypos, trues, falses, d) <= AliveCount(hypos[..d])
  {
    if d > 0 {
      KilledAtMostAlive(hypos, trues, falses, d - 1);
      assert hypos[..d][..d - 1] == hypos[..d - 1];
    }
  }

  lemma {:induction false} AliveBefore(hypos: seq<HypoTally>, d: nat)
    requires d < |hypos| && Alive(hypos[d])
    ensures AliveCount(hypos[..d]) < AliveCount(hypos)
  {
    if d < |hypos| - 1 {
      AliveBefore(hypos[..|hypos| - 1], d);
      assert hypos[..|hypos| - 1][..d] == hypos[..d];
    }
  }

  /** In a state with a likely hypothesis, no other can be found decisive or supported. */
  lemma CrownedIsLone(hypos: seq<HypoTally>, trues: seq<int>, falses: seq<int>, d: nat)
    requires TalliesSound(hypos) && CountsSound(hypos, trues, falses)
    requires d < |hypos| && Alive(hypos[d])
    ensures var c := Crowned(Pass(hypos, trues, falses, d), d, trues[d], |hypos|);
            forall i :: 0 <= i < |hypos| && i != d ==> !Alive(c[i]) && c[i].accumPost == 0
  {
  }

  lemma NovelPassSound(hypos: seq<HypoTally>)
    requires TalliesSound(hypos)
    ensures TalliesSound(NovelPass(hypos, |hypos|))
  {
    NovelPassSum(hypos);
  }

  lemma CrownedSound(hypos: seq<HypoTally>, trues: seq<int>, falses: seq<int>, d: nat)
    requires TalliesSound(hypos) && CountsSound(hypos, trues, falses)
    requires d < |hypos| && Alive(hypos[d])
    ensures var c := Crowned(Pass(hypos, trues, falses, d), d, trues[d], |hypos|);
            TalliesSound(c) && AliveCount(c) == 1
  {
    var c := Crowned(Pass(hypos, trues, falses, d), d, trues[d], |hypos|);
    CrownedIsLone(hypos, trues, falses, d);
    LoneAliveCount(c, d);
    AliveCountPositive(c, d);
  }

  lemma PassSound(hypos: seq<HypoTally>, trues: seq<int>, falses: seq<int>, i: nat)
    requires TalliesSound(hypos) && CountsSound(hypos, trues, falses)
    requires i < |hypos| && Alive(hypos[i]) && trues[i] > 0
    ensures TalliesSound(Pass(hypos, trues, falses, |hypos|)) && SumAccum(Pass(hypos, trues, falses, |hypos|)) >= 1
  {
    var w := Pass(hypos, trues, falses, |hypos|);
    assert Alive(w[i]) && w[i].accumPost >= 1;
    AliveCountPositive(w, i);
    AccumAtMostSum(w, i);
  }

  /** Whatever the answer, at least one hypothesis stays alive, the posterior's divisor is
      at least one, the running count of live hypotheses is not an underestimate (so the
      case cannot be declared bust), and the tallies stay sound. */
  lemma EvidenceLeavesAHypothesis(hypos: seq<HypoTally>, trues: seq<int>, falses: seq<int>,
                                  numAlive: int, mapp: nat, mappAt100pct: bool)
    requires TalliesSound(hypos) && CountsSound(hypos, trues, falses)
    requires numAlive >= AliveCount(hypos)
    ensures var p := Applied(hypos, trues, falses, numAlive, mapp, mappAt100pct);
            TalliesSound(p.hypos) && p.sumAccum >= 1 && p.numAlive >= AliveCount(p.hypos) >= 1
  {
    var n := |hypos|;
    var d := FirstDecisive(hypos, trues, 0);
    WeightNonNegative(hypos, trues, n);
    if IsNovel(hypos, trues) {
      NovelPassSum(hypos);
      NovelPassSound(hypos);
    } else if d < n {
      CrownedSound(hypos, trues, falses, d);
      KilledBefore(hypos, trues, falses, d);
    } else {
      PassAliveCount(hypos, trues, falses);
      var i := SomeSupported(hypos, trues, n);
      PassSound(hypos, trues, falses, i);
    }
  }

  /** No hypothesis still alive was ever true with the value. */
  predicate NeverMet(hypos: seq<HypoTally>, trues: seq<int>)
    requires |hypos| == |trues|
  {
    forall i :: 0 <= i < |hypos| && hypos[i].status != STATUS_DEAD ==> trues[i] == 0
  }

  /** Whatever is alive after an answer has gained its true counts with the value given - or one, if
      none alive was ever true with it - and what is dead has none. */
  ghost predicate CountsAdded(hypos: seq<HypoTally>, trues: seq<int>, after: seq<HypoTally>)
    requires |hypos| == |trues|
  {
    && |after| == |hypos|
    && forall i :: 0 <= i < |hypos| ==>
         after[i].accumPost == if after[i].status == STATUS_DEAD then 0
                               else hypos[i].accumPost + if NeverMet(hypos, trues) then 1 else trues[i]
  }

  lemma AppliedAddsCounts(hypos: seq<HypoTally>, trues: seq<int>, falses: seq<int>,
                          numAlive: int, mapp: nat, mappAt100pct: bool)
    requires TalliesSound(hypos) && CountsSound(hypos, trues, falses)
    ensures CountsAdded(hypos, trues, Applied(hypos, trues, falses, numAlive, mapp, mappAt100pct).hypos)
  {
    var d := FirstDecisive(hypos, trues, 0);
    WeightZeroIff(hypos, trues, |hypos|);
    if !IsNovel(hypos, trues) && d < |hypos| {
      CrownedIsLone(hypos, trues, falses, d);
    }
  }

  // ----- When the posterior counts make a distribution -----

  lemma {:induction false} NoAccumNoSum(hypos: seq<HypoTally>)
    requires forall i :: 0 <= i < |hypos| ==> hypos[i].accumPost == 0
    ensures SumAccum(hypos) == 0
  {
    if hypos != [] {
      NoAccumNoSum(hypos[..|hypos| - 1]);
    }
  }

  /** The divisor is the sum of what it divides, exactly when the evidence value is not
      novel or nothing had been accumulated before it. */
  lemma PosteriorIsDistributionIff(hypos: seq<HypoTally>, trues: seq<int>, falses: seq<int>,
                                   numAlive: int, mapp: nat, mappAt100pct: bool)
    requires TalliesSound(hypos) && CountsSound(hypos, trues, falses)
    ensures var p := Applied(hypos, trues, falses, numAlive, mapp, mappAt100pct);
            SumAccum(p.hypos) == p.sumAccum <==> !IsNovel(hypos, trues) || SumAccum(hypos) == 0
  {
    var p := Applied(hypos, trues, falses, numAlive, mapp, mappAt100pct);
    var d := FirstDecisive(hypos, trues, 0);
    if IsNovel(hypos, trues) {
      NovelPassSum(hypos);
    } else if d < |hypos| {
      CrownedIsLone(hypos, trues, falses, d);
      SumOfLone(p.hypos, d);
    }
  }

  // ----- Per-mille probabilities -----

  /** Conversion to the 16-bit type the probabilities are kept in. */
  function AsShort(x: int): int {
    (x + 32768) % 65536 - 32768
  }

  function PerMille(count: int, total: int): int
    requires total > 0
  {
    AsShort(count * 1000 / total)
  }

  lemma MulMonotone(t: int, a: int, b: int)
    requires 0 <= t && a <= b
    ensures t * a <= t * b
  {
  }

  lemma LessByMul(t: int, a: int, b: int)
    requires 0 < t && t * a < t * b
    ensures a < b
  {
    if b <= a {
      MulMonotone(t, b, a);
    }
  }

  lemma QuotientBounds(x: int, t: int)
    requires 0 < t
    ensures t * (x / t) <= x < t * (x / t) + t
  {
  }

  lemma PerMilleBounds(count: int, total: int)
    requires 0 <= count <= total && total > 0
    ensures 0 <= PerMille(count, total) <= 1000
    ensures PerMille(0, total) == 0
    ensures total * PerMille(count, total) <= 1000 * count < total * PerMille(count, total) + total
  {
    var q := count * 1000 / total;
    QuotientBounds(count * 1000, total);
    assert total * (q - 1) == total * q - total;
    LessByMul(total, q - 1, 1000);
    assert total * (q + 1) == total * q + total;
    LessByMul(total, 0, q + 1);
    assert PerMille(0, total) == 0 by {
      QuotientBounds(0, total);
      assert 0 / total == 0;
    }
  }

  /** Less of a count is never more of a probability. */
  lemma PerMilleMonotone(a: int, b: int, total: int)
    requires 0 <= a <= b <= total && total > 0
    ensures PerMille(a, total) <= PerMille(b, total)
  {
    PerMilleBounds(a, total);
    PerMilleBounds(b, total);
    var p, q := PerMille(a, total), PerMille(b, total);
    assert total * (q + 1) == total * q + total;
    LessByMul(total, p, q + 1);
  }

  function Sum(s: seq<int>): int {
    if s == [] then 0 else Sum(s[..|s| - 1]) + s[|s| - 1]
  }

  function PerMilles(counts: seq<int>, total: int): seq<int>
    requires total > 0
  {
    seq(|counts|, i requires 0 <= i < |counts| => PerMille(counts[i], total))
  }

  lemma MulSum(t: int, a: int, b: int)
    ensures t * (a + b) == t * a + t * b
  {
  }

  lemma {:induction false} PerMilleSumScaled(counts: seq<int>, total: int)
    requires total > 0 && forall i :: 0 <= i < |counts| ==> 0 <= counts[i] <= total
    ensures total * Sum(PerMilles(counts, total)) <= 1000 * Sum(counts)
    ensures 1000 * Sum(counts) <= total * Sum(PerMilles(counts, total)) + (total - 1) * |counts|
  {
    if counts != [] {
      var front, last := counts[..|counts| - 1], counts[|counts| - 1];
      PerMilleSumScaled(front, total);
      PerMilleBounds(last, total);
      var ps := PerMilles(counts, total);
      assert ps[..|counts| - 1] == PerMilles(front, total);
      MulSum(total, Sum(PerMilles(front, total)), PerMille(last, total));
      MulSum(total - 1, |front|, 1);
    }
  }

  lemma {:induction false} EachWithinSum(counts: seq<int>, i: nat)
    requires i < |counts| && forall j :: 0 <= j < |counts| ==> 0 <= counts[j]
    ensures counts[i] <= Sum(counts) && 0 <= Sum(counts[..|counts| - 1])
  {
    var front := counts[..|counts| - 1];
    if front != [] {
      EachWithinSum(front, if i < |front| then i else 0);
    }
  }

  lemma {:induction false} TwoWithinSum(counts: seq<int>, i: nat, j: nat)
    requires i < j < |counts| && forall k :: 0 <= k < |counts| ==> 0 <= counts[k]
    ensures counts[i] + counts[j] <= Sum(counts)
  {
    var n := |counts| - 1;
    if j == n {
      EachWithinSum(counts[..n], i);
    } else {
      TwoWithinSum(counts[..n], i, j);
    }
  }

  lemma Unscaled(total: int, s: int, n: int)
    requires total > 0 && n > 0
    requires total * s <= 1000 * total <= total * s + (total - 1) * n
    ensures 1000 - n < s <= 1000
  {
    assert total * (s - 1) == total * s - total;
    LessByMul(total, s - 1, 1000);
    assert total * (1000 - n) == 1000 * total - total * n;
    assert (total - 1) * n == total * n - n;
    LessByMul(total, 1000 - n, s);
  }

  /** Probabilities of counts over their own sum: each in range, none lost but the
      truncated fractions of a per-mille. */
  lemma PerMillesOfADistribution(counts: seq<int>, total: int)
    requires total > 0 && Sum(counts) == total && counts != []
    requires forall i :: 0 <= i < |counts| ==> 0 <= counts[i]
    ensures forall i :: 0 <= i < |counts| ==> 0 <= PerMilles(counts, total)[i] <= 1000
    ensures forall i :: 0 <= i < |counts| && counts[i] == 0 ==> PerMilles(counts, total)[i] == 0
    ensures 1000 - |counts| < Sum(PerMilles(counts, total)) <= 1000
  {
    forall i | 0 <= i < |counts|
      ensures 0 <= counts[i] <= total && 0 <= PerMilles(counts, total)[i] <= 1000
      ensures counts[i] == 0 ==> PerMilles(counts, total)[i] == 0
    {
      EachWithinSum(counts, i);
      PerMilleBounds(counts[i], total);
    }
    PerMilleSumScaled(counts, total);
    Unscaled(total, Sum(PerMilles(counts, total)), |counts|);
  }

  // ----- The most probable hypothesis -----

  /** The registers of the scan: candidate, its probability, and the early cut-off. */
  datatype Scan = Scan(mapp: nat, best: int, at100: bool, threw: bool)

  const CUT_OFF := 989

  /** Look-up by hypothesis id; an unknown id is an error. */
  function IndexOf(ids: seq<nat>, id: nat): (i: nat)
    ensures i <= |ids|
    ensures i < |ids| ==> ids[i] == id
    ensures i == |ids| <==> id !in ids
  {
    if ids == [] then 0 else if ids[0] == id then 0 else 1 + IndexOf(ids[1..], id)
  }

  function ScanStep(s: Scan, ids: seq<nat>, counts: seq<int>, probs: seq<int>, i: nat): Scan
    requires |ids| == |counts| == |probs| && i < |ids|
  {
    if s.at100 || s.threw then s
    else
      var s' :=
        if probs[i] > s.best then s.(mapp := ids[i], best := probs[i])
        else if probs[i] == s.best then
          var held := IndexOf(ids, s.mapp);
          if held == |ids| then s.(threw := true)
          else if counts[i] > counts[held] then s.(mapp := ids[i]) else s
        else s;
      if s'.threw then s' else s'.(at100 := s'.best > CUT_OFF)
  }

  /** The scan over the first `upTo` hypotheses, starting from the candidate held. */
  function Scanned(ids: seq<nat>, counts: seq<int>, probs: seq<int>, mapp: nat, at100: bool, upTo: nat): Scan
    requires |ids| == |counts| == |probs| && upTo <= |ids|
  {
    if upTo == 0 then Scan(mapp, 0, at100, false)
    else ScanStep(Scanned(ids, counts, probs, mapp, at100, upTo - 1), ids, counts, probs, upTo - 1)
  }

  ghost predicate HasMaximalCount(ids: seq<nat>, counts: seq<int>, id: nat) {
    && |ids| == |counts|
    && exists j :: 0 <= j < |ids| && ids[j] == id && forall i :: 0 <= i < |ids| ==> counts[i] <= counts[j]
  }

  lemma IndexOfDistinct(ids: seq<nat>, i: nat)
    requires Distinct(ids) && i < |ids|
    ensures IndexOf(ids, ids[i]) == i
  {
  }

  /** What the scan knows after `upTo` hypotheses. */
  ghost predicate ScanInvariant(s: Scan, ids: seq<nat>, counts: seq<int>, probs: seq<int>, upTo: nat)
    requires |ids| == |counts| == |probs| && upTo <= |ids|
  {
    && !s.threw && s.mapp in ids && 0 <= s.best
    && (s.at100 <==> s.best > CUT_OFF)
    && var j := IndexOf(ids, s.mapp);
       && (s.best > 0 ==> probs[j] == s.best)
       && (s.at100 ==> forall i :: 0 <= i < |ids| ==> counts[i] <= counts[j])
       && (!s.at100 ==> forall i :: 0 <= i < upTo ==> counts[i] <= counts[j] && probs[i] <= s.best)
  }

  lemma CutOffIsMaximal(counts: seq<int>, total: int, j: nat)
    requires total > 0 && Sum(counts) == total && j < |counts|
    requires forall i :: 0 <= i < |counts| ==> 0 <= counts[i]
    requires PerMille(counts[j], total) > CUT_OFF
    ensures forall i :: 0 <= i < |counts| ==> counts[i] <= counts[j]
  {
    EachWithinSum(counts, j);
    PerMilleBounds(counts[j], total);
    MulMonotone(total, 990, PerMille(counts[j], total));
    forall i | 0 <= i < |counts|
      ensures counts[i] <= counts[j]
    {
      if i < j {
        TwoWithinSum(counts, i, j);
      } else if j < i {
        TwoWithinSum(counts, j, i);
      }
    }
  }

  lemma ScanStepKeeps(s: Scan, ids: seq<nat>, counts: seq<int>, total: int, i: nat)
    requires Distinct(ids) && |ids| == |counts| && i < |ids|
    requires total > 0 && Sum(counts) == total && forall k :: 0 <= k < |counts| ==> 0 <= counts[k]
    requires ScanInvariant(s, ids, counts, PerMilles(counts, total), i)
    ensures ScanInvariant(ScanStep(s, ids, counts, PerMilles(counts, total), i),
                          ids, counts, PerMilles(counts, total), i + 1)
  {
    var probs := PerMilles(counts, total);
    var s' := ScanStep(s, ids, counts, probs, i);
    IndexOfDistinct(ids, i);
    if !s.at100 {
      var held := IndexOf(ids, s.mapp);
      EachWithinSum(counts, i);
      PerMilleBounds(counts[i], total);
      if probs[i] > s.best {
        forall k | 0 <= k < i
          ensures counts[k] <= counts[i]
        {
          EachWithinSum(counts, k);
          if counts[k] > counts[i] {
            PerMilleMonotone(counts[i], counts[k], total);
          }
        }
      } else if probs[i] < s.best {
        EachWithinSum(counts, held);
        if counts[i] > counts[held] {
          PerMilleMonotone(counts[held], counts[i], total);
        }
      }
      if s'.at100 {
        CutOffIsMaximal(counts, total, IndexOf(ids, s'.mapp));
      }
    }
  }

  lemma {:induction false} ScanKeeps(ids: seq<nat>, counts: seq<int>, total: int, mapp: nat, upTo: nat)
    requires Distinct(ids) && |ids| == |counts| && upTo <= |ids| && mapp in ids
    requires total > 0 && Sum(counts) == total && forall k :: 0 <= k < |counts| ==> 0 <= counts[k]
    ensures ScanInvariant(Scanned(ids, counts, PerMilles(counts, total), mapp, false, upTo),
                          ids, counts, PerMilles(counts, total), upTo)
  {
    if upTo > 0 {
      ScanKeeps(ids, counts, total, mapp, upTo - 1);
      var s := Scanned(ids, counts, PerMilles(counts, total), mapp, false, upTo - 1);
      ScanStepKeeps(s, ids, counts, total, upTo - 1);
    }
  }

  /** Truncation, the tie-break on counts and the early cut-off notwithstanding, a scan
      entered below 100% ends on a hypothesis whose count no other exceeds, and reports
      100% exactly when some probability is past the cut-off. */
  lemma ScanFindsMaximalCount(ids: seq<nat>, counts: seq<int>, total: int, mapp: nat)
    requires Distinct(ids) && |ids| == |counts| && mapp in ids
    requires total > 0 && Sum(counts) == total && forall k :: 0 <= k < |counts| ==> 0 <= counts[k]
    ensures var s := Scanned(ids, counts, PerMilles(counts, total), mapp, false, |ids|);
            && !s.threw && HasMaximalCount(ids, counts, s.mapp)
            && (s.at100 <==> exists i :: 0 <= i < |ids| && PerMilles(counts, total)[i] > CUT_OFF)
  {
    var probs := PerMilles(counts, total);
    ScanKeeps(ids, counts, total, mapp, |ids|);
    var s := Scanned(ids, counts, probs, mapp, false, |ids|);
    var j := IndexOf(ids, s.mapp);
    assert ids[j] == s.mapp;
  }

  // ----- Among several with as many counts, the first walked -----

  /** Once a candidate has a probability, none walked before it has as many counts. */
  ghost predicate HoldsFirst(s: Scan, ids: seq<nat>, counts: seq<int>, upTo: nat)
    requires |ids| == |counts|
  {
    s.best > 0 ==> s.mapp in ids && var j := IndexOf(ids, s.mapp);
                   j < upTo && forall k :: 0 <= k < j ==> counts[k] < counts[j]
  }

  lemma ScanStepHoldsFirst(s: Scan, ids: seq<nat>, counts: seq<int>, total: int, i: nat)
    requires Distinct(ids) && |ids| == |counts| && i < |ids|
    requires total > 0 && Sum(counts) == total && forall k :: 0 <= k < |counts| ==> 0 <= counts[k]
    requires ScanInvariant(s, ids, counts, PerMilles(counts, total), i) && HoldsFirst(s, ids, counts, i)
    ensures HoldsFirst(ScanStep(s, ids, counts, PerMilles(counts, total), i), ids, counts, i + 1)
  {
    var probs := PerMilles(counts, total);
    IndexOfDistinct(ids, i);
    if !s.at100 && probs[i] > s.best {
      EachWithinSum(counts, i);
      forall k | 0 <= k < i
        ensures counts[k] < counts[i]
      {
        EachWithinSum(counts, k);
        if counts[k] >= counts[i] {
          PerMilleMonotone(counts[i], counts[k], total);
        }
      }
    }
  }

  lemma {:induction false} ScanHoldsFirst(ids: seq<nat>, counts: seq<int>, total: int, mapp: nat, upTo: nat)
    requires Distinct(ids) && |ids| == |counts| && upTo <= |ids| && mapp in ids
    requires total > 0 && Sum(counts) == total && forall k :: 0 <= k < |counts| ==> 0 <= counts[k]
    ensures HoldsFirst(Scanned(ids, counts, PerMilles(counts, total), mapp, false, upTo), ids, counts, upTo)
  {
    if upTo > 0 {
      ScanHoldsFirst(ids, counts, total, mapp, upTo - 1);
      ScanKeeps(ids, counts, total, mapp, upTo - 1);
      var s := Scanned(ids, counts, PerMilles(counts, total), mapp, false, upTo - 1);
      ScanStepHoldsFirst(s, ids, counts, total, upTo - 1);
    }
  }

  /** The hypothesis has more counts than any walked before it, and as many as any after it. */
  ghost predicate IsFirstOfMost(ids: seq<nat>, counts: seq<int>, id: nat) {
    && |ids| == |counts|
    && exists j :: 0 <= j < |ids| && ids[j] == id
                   && forall i :: 0 <= i < |ids| ==> if i < j then counts[i] < counts[j] else counts[i] <= counts[j]
  }

  lemma {:induction false} NoShares(counts: seq<int>, total: int)
    requires 0 < total && forall i :: 0 <= i < |counts| ==> 1000 * counts[i] < total
    ensures 1000 * Sum(counts) <= |counts| * (total - 1)
  {
    if counts != [] {
      NoShares(counts[..|counts| - 1], total);
      MulSum(total - 1, |counts| - 1, 1);
    }
  }

  /** A thousand counts at most, not all of them can truncate to nothing. */
  lemma SomeShare(counts: seq<int>, total: int)
    requires total > 0 && Sum(counts) == total && |counts| <= 1000
    ensures exists i :: 0 <= i < |counts| && 1000 * counts[i] >= total
  {
    if forall i :: 0 <= i < |counts| ==> 1000 * counts[i] < total {
      NoShares(counts, total);
      MulMonotone(total - 1, |counts|, 1000);
    }
  }

  lemma PerMilleAtLeastIff(count: int, total: int, p: int)
    requires 0 <= count <= total && total > 0
    ensures PerMille(count, total) >= p <==> 1000 * count >= p * total
  {
    PerMilleBounds(count, total);
    var q := PerMille(count, total);
    if q >= p {
      MulMonotone(total, p, q);
    } else {
      MulMonotone(total, q + 1, p);
      MulSum(total, q, 1);
    }
  }

  lemma SharesAtLeast(counts: seq<int>, total: int, i: nat)
    requires total > 0 && Sum(counts) == total && forall k :: 0 <= k < |counts| ==> 0 <= counts[k]
    requires i < |counts|
    ensures PerMilles(counts, total)[i] > CUT_OFF <==> 1000 * counts[i] >= 990 * total
    ensures PerMilles(counts, total)[i] > 0 <==> 1000 * counts[i] >= total
  {
    EachWithinSum(counts, i);
    PerMilleAtLeastIff(counts[i], total, 990);
    PerMilleAtLeastIff(counts[i], total, 1);
  }

  /** Entered below 100%, with a thousand hypotheses at most, a scan ends on the first walked of
      those that have the most counts, and reports 100% exactly if one of them has at least 990
      per mille of the whole. */
  lemma ScanEndsOnFirstOfMost(ids: seq<nat>, counts: seq<int>, total: int, mapp: nat)
    requires Distinct(ids) && |ids| == |counts| <= 1000 && mapp in ids
    requires total > 0 && Sum(counts) == total && forall k :: 0 <= k < |counts| ==> 0 <= counts[k]
    ensures var s := Scanned(ids, counts, PerMilles(counts, total), mapp, false, |ids|);
            && !s.threw && IsFirstOfMost(ids, counts, s.mapp)
            && (s.at100 <==> exists i :: 0 <= i < |ids| && 1000 * counts[i] >= 990 * total)
  {
    var s := Scanned(ids, counts, PerMilles(counts, total), mapp, false, |ids|);
    ScanKeeps(ids, counts, total, mapp, |ids|);
    ScanHoldsFirst(ids, counts, total, mapp, |ids|);
    forall i | 0 <= i < |ids|
      ensures PerMilles(counts, total)[i] > CUT_OFF <==> 1000 * counts[i] >= 990 * total
      ensures PerMilles(counts, total)[i] > 0 <==> 1000 * counts[i] >= total
    {
      SharesAtLeast(counts, total, i);
    }
    SomeShare(counts, total);
    assert s.best > 0;
    assert ids[IndexOf(ids, s.mapp)] == s.mapp;
  }

  /** The first scan of a case holds no candidate yet: it ends in an error exactly when
      the first hypothesis walked has a probability that truncates to zero. */
  lemma {:induction false} FirstScanThrowsIff(ids: seq<nat>, counts: seq<int>, probs: seq<int>, mapp: nat, upTo: nat)
    requires |ids| == |counts| == |probs| && 0 < upTo <= |ids| && mapp !in ids
    requires forall i :: 0 <= i < |probs| ==> 0 <= probs[i]
    ensures var s := Scanned(ids, counts, probs, mapp, false, upTo);
            && (s.threw <==> probs[0] == 0)
            && (!s.threw ==> s.best > 0 && s.mapp in ids)
  {
    if upTo > 1 {
      FirstScanThrowsIff(ids, counts, probs, mapp, upTo - 1);
    } else {
      assert Scanned(ids, counts, probs, mapp, false, 0) == Scan(mapp, 0, false, false);
    }
  }

  /** From the second hypothesis on, a first scan proceeds as if it had started with the
      first one as its candidate. */
  lemma {:induction false} FirstScanAsAny(ids: seq<nat>, counts: seq<int>, probs: seq<int>, mapp: nat, upTo: nat)
    requires |ids| == |counts| == |probs| && 0 < upTo <= |ids|
    requires probs[0] > 0
    ensures Scanned(ids, counts, probs, mapp, false, upTo) == Scanned(ids, counts, probs, ids[0], false, upTo)
  {
    if upTo > 1 {
      FirstScanAsAny(ids, counts, probs, mapp, upTo - 1);
    } else {
      assert Scanned(ids, counts, probs, mapp, false, 0) == Scan(mapp, 0, false, false);
      assert Scanned(ids, counts, probs, ids[0], false, 0) == Scan(ids[0], 0, false, false);
    }
  }
}
