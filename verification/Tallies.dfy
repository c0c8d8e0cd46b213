/** The records a diagnostic case keeps of its hypotheses and evidence items. */
module Tallies {
  import opened Nodes

  const STATUS_DEAD: nat := 0     // likely false
  const STATUS_LIKELY: nat := 1   // likely true
  const STATUS_OPEN: nat := 2     // no basis yet to call it either

  datatype HypoTally = HypoTally(id: nat, priorCount: int, accumPost: int, priorProb: int, postProb: int, status: nat)

  datatype EvidTally = EvidTally(id: nat, status: nat)

  function NewHypo(id: nat, priorCount: int): HypoTally {
    HypoTally(id, priorCount, 0, 0, 0, STATUS_OPEN)
  }

  function HypoIds(hypos: seq<HypoTally>): (r: seq<nat>)
    ensures |r| == |hypos|
    ensures forall i :: 0 <= i < |hypos| ==> r[i] == hypos[i].id
  {
    seq(|hypos|, i requires 0 <= i < |hypos| => hypos[i].id)
  }

  function EvidIds(evids: seq<EvidTally>): (r: seq<nat>)
    ensures |r| == |evids|
    ensures forall i :: 0 <= i < |evids| ==> r[i] == evids[i].id
  {
    seq(|evids|, i requires 0 <= i < |evids| => evids[i].id)
  }

  function SumPriors(hypos: seq<HypoTally>): int {
    if hypos == [] then 0 else SumPriors(hypos[..|hypos| - 1]) + hypos[|hypos| - 1].priorCount
  }

  lemma SumPriorsOneMore(hypos: seq<HypoTally>, t: HypoTally)
    ensures SumPriors(hypos + [t]) == SumPriors(hypos) + t.priorCount
  {
    assert (hypos + [t])[..|hypos|] == hypos;
  }

  /** Occasions on which a hypothesis was true, over the given evidence items. */
  function PriorCount(nodes: NodeMap, rule: nat, hypo: nat, evids: seq<nat>): int {
    if evids == [] then 0
    else PriorCount(nodes, rule, hypo, evids[..|evids| - 1])
         + ColumnTotal(At(nodes, NodeKey(rule, hypo, evids[|evids| - 1])).trues)
  }
}
