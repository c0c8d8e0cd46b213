/** What designing and teaching do to the joint occurrence tables of one rule.

    The tables of a rule are consistent at an evidence item when, for each row, every
    hypothesis of the rule has the same number of occurrences (false plus true) and
    that number is the sum of the true counts over the hypotheses: exactly one
    hypothesis was true on each occasion. */
module OccurrenceTable {
  import opened Nodes

  /** An expert's statement that an evidence item bears on a (nominal) hypothesis. */
  datatype Association = Association(nominal: nat, evid: nat, direct: bool, invertible: bool)

  /** One verified case as the knowledge base sees it: the final status of each of
      its evidence items and the one hypothesis found true. */
  datatype Teaching = Teaching(rule: nat, hypos: set<nat>, status: map<nat, nat>, trueHypo: nat)

  /** The hypotheses and evidence items that can be looked up by id. */
  datatype Known = Known(hypos: set<nat>, evids: set<nat>)

  /** Associations make known the hypotheses they name and their items, and no others. */
  function KnownBy(assocs: seq<Association>): Known {
    Known(set a | a in assocs :: a.nominal, set a | a in assocs :: a.evid)
  }

  function KnownAlso(known: Known, assocs: seq<Association>): Known {
    Known(known.hypos + KnownBy(assocs).hypos, known.evids + KnownBy(assocs).evids)
  }

  lemma KnownInTwo(known: Known, first: seq<Association>, second: seq<Association>)
    ensures KnownAlso(known, first + second) == KnownAlso(KnownAlso(known, first), second)
  {
    assert forall a :: a in first + second <==> a in first || a in second;
  }

  predicate WellFormed(t: Teaching) {
    && t.trueHypo in t.hypos
    && forall e :: e in t.status ==> t.status[e] < NUM_ROWS
  }

  // ----- Initialization -----

  /** The table written at one hypothesis of a rule having `numHypos` of them. */
  function DesignNode(numHypos: nat, a: Association, hypo: nat): Knode {
    var whenHeld := if a.direct then ROW_TRUE else ROW_FALSE;
    var otherwise := if a.direct then ROW_FALSE else ROW_TRUE;
    if hypo == a.nominal then
      Knode(if a.invertible then EMPTY_NODE.falses[otherwise := numHypos - 1] else EMPTY_NODE.falses,
            EMPTY_NODE.trues[whenHeld := 1])
    else
      Knode(EMPTY_NODE.falses[otherwise := numHypos - 2][whenHeld := 1],
            EMPTY_NODE.trues[otherwise := 1])
  }

  function KeysAt(rule: nat, hypos: set<nat>, evid: nat): set<NodeKey> {
    set h | h in hypos :: NodeKey(rule, h, evid)
  }

  /** The tables of one evidence item overwritten at the given hypotheses. */
  function InitializedAt(nodes: NodeMap, rule: nat, at: set<nat>, numHypos: nat, a: Association): NodeMap {
    map k | k in nodes.Keys + KeysAt(rule, at, a.evid) ::
      if k in KeysAt(rule, at, a.evid) then DesignNode(numHypos, a, k.hypo) else nodes[k]
  }

  /** One association written at every hypothesis of its rule. */
  function Initialized(nodes: NodeMap, rule: nat, hypos: seq<nat>, a: Association): NodeMap {
    InitializedAt(nodes, rule, Range(hypos), |hypos|, a)
  }

  /** A rule built into the knowledge base, one association after another. */
  function Built(nodes: NodeMap, rule: nat, hypos: seq<nat>, assocs: seq<Association>): NodeMap {
    if assocs == [] then nodes
    else Initialized(Built(nodes, rule, hypos, assocs[..|assocs| - 1]), rule, hypos, assocs[|assocs| - 1])
  }

  /** The association that wrote an evidence item last. */
  function LastNaming(assocs: seq<Association>, evid: nat): Association
    requires exists a :: a in assocs && a.evid == evid
  {
    var last := assocs[|assocs| - 1];
    if last.evid == evid then last else LastNaming(assocs[..|assocs| - 1], evid)
  }

  /** A rule designed into a knowledge base that had nothing on it. */
  ghost predicate IsDesign(base: NodeMap, rule: nat, design: seq<nat>, assocs: seq<Association>) {
    && NonNegative(base) && (forall k :: k in base ==> k.rule != rule)
    && Distinct(design) && forall a :: a in assocs ==> a.nominal in design
  }

  lemma DesignNodeNonNegative(design: seq<nat>, a: Association, hypo: nat)
    requires a.nominal in design && hypo in design
    ensures NonNegativeNode(DesignNode(|design|, a, hypo))
  {
    if hypo != a.nominal {
      var i :| 0 <= i < |design| && design[i] == hypo;
      var j :| 0 <= j < |design| && design[j] == a.nominal;
      assert i != j;
    }
  }

  lemma {:induction false} DesignNonNegative(base: NodeMap, rule: nat, design: seq<nat>, assocs: seq<Association>)
    requires IsDesign(base, rule, design, assocs)
    ensures NonNegative(Built(base, rule, design, assocs))
  {
    if assocs != [] {
      var front, last := assocs[..|assocs| - 1], assocs[|assocs| - 1];
      DesignNonNegative(base, rule, design, front);
      var after := Built(base, rule, design, assocs);
      assert last in assocs;
      forall k | k in after
        ensures NonNegativeNode(after[k])
      {
        if k in KeysAt(rule, Range(design), last.evid) {
          assert k.hypo in design;
          DesignNodeNonNegative(design, last, k.hypo);
        }
      }
    }
  }

  // ----- Teaching -----

  function CaseKeys(t: Teaching): set<NodeKey> {
    set h, e | h in t.hypos && e in t.status :: NodeKey(t.rule, h, e)
  }

  function Bumped(n: Knode, row: nat, hypoTrue: bool): Knode
    requires row < NUM_ROWS
  {
    if hypoTrue then n.(trues := Increment(n.trues, row)) else n.(falses := Increment(n.falses, row))
  }

  /** Exactly one count added at each (case hypothesis, case evidence) node. */
  function Taught(nodes: NodeMap, t: Teaching): NodeMap
    requires WellFormed(t)
  {
    map k | k in nodes.Keys + CaseKeys(t) ::
      if k in CaseKeys(t) then Bumped(At(nodes, k), t.status[k.evid], k.hypo == t.trueHypo) else nodes[k]
  }

  lemma TaughtNonNegative(nodes: NodeMap, t: Teaching)
    requires WellFormed(t) && NonNegative(nodes)
    ensures NonNegative(Taught(nodes, t))
  {
    var after := Taught(nodes, t);
    forall k | k in after
      ensures NonNegativeNode(after[k])
    {
      assert NonNegativeNode(At(nodes, k));
    }
  }

  ghost predicate AllWellFormed(history: seq<Teaching>) {
    forall i :: 0 <= i < |history| ==> WellFormed(history[i])
  }

  function TaughtAll(nodes: NodeMap, history: seq<Teaching>): NodeMap
    requires forall i :: 0 <= i < |history| ==> WellFormed(history[i])
  {
    if history == [] then nodes
    else Taught(TaughtAll(nodes, history[..|history| - 1]), history[|history| - 1])
  }

  // ----- Consistency -----

  function SumTrues(nodes: NodeMap, rule: nat, hypos: seq<nat>, evid: nat, row: nat): int
    requires row < NUM_ROWS
  {
    if hypos == [] then 0
    else At(nodes, NodeKey(rule, hypos[0], evid)).trues[row] + SumTrues(nodes, rule, hypos[1..], evid, row)
  }

  /** How far one hypothesis's occurrences are from those of the whole rule. */
  function Discrepancy(nodes: NodeMap, rule: nat, hypos: seq<nat>, hypo: nat, evid: nat, row: nat): int
    requires row < NUM_ROWS
  {
    var n := At(nodes, NodeKey(rule, hypo, evid));
    n.falses[row] + n.trues[row] - SumTrues(nodes, rule, hypos, evid, row)
  }

  ghost predicate Consistent(nodes: NodeMap, rule: nat, hypos: seq<nat>, evid: nat) {
    forall h, v :: h in hypos && 0 <= v < NUM_ROWS ==> Discrepancy(nodes, rule, hypos, h, evid, v) == 0
  }

  // ----- Initialization establishes consistency exactly for invertible logic -----

  lemma {:induction false} DesignSum(nodes: NodeMap, rule: nat, hypos: seq<nat>, a: Association,
                                     rest: seq<nat>, row: nat)
    requires row < NUM_ROWS
    requires Distinct(rest) && forall h :: h in rest ==> h in hypos
    ensures SumTrues(Initialized(nodes, rule, hypos, a), rule, rest, a.evid, row)
         == (if row == ROW_UNEVALUATED then 0
             else if (row == ROW_TRUE) == a.direct then (if a.nominal in rest then 1 else 0)
             else |rest| - (if a.nominal in rest then 1 else 0))
  {
    if rest != [] {
      DesignSum(nodes, rule, hypos, a, rest[1..], row);
      assert rest[0] in hypos;
      assert NodeKey(rule, rest[0], a.evid) in KeysAt(rule, Range(hypos), a.evid);
      assert a.nominal in rest <==> a.nominal == rest[0] || a.nominal in rest[1..];
      assert a.nominal == rest[0] ==> a.nominal !in rest[1..];
    }
  }

  /** One association leaves its evidence item consistent iff its logic is invertible
      or the rule has no alternative hypothesis. */
  lemma InitializationConsistentIff(nodes: NodeMap, rule: nat, hypos: seq<nat>, a: Association)
    requires Distinct(hypos) && a.nominal in hypos
    ensures Consistent(Initialized(nodes, rule, hypos, a), rule, hypos, a.evid)
       <==> a.invertible || |hypos| == 1
  {
    var after := Initialized(nodes, rule, hypos, a);
    forall h, v | h in hypos && 0 <= v < NUM_ROWS
      ensures Discrepancy(after, rule, hypos, h, a.evid, v)
           == if !a.invertible && h == a.nominal && v != ROW_UNEVALUATED && ((v == ROW_TRUE) != a.direct)
              then 1 - |hypos| else 0
    {
      DesignSum(nodes, rule, hypos, a, hypos, v);
      assert NodeKey(rule, h, a.evid) in KeysAt(rule, Range(hypos), a.evid);
    }
    if !a.invertible && |hypos| != 1 {
      var v := if a.direct then ROW_FALSE else ROW_TRUE;
      assert Discrepancy(after, rule, hypos, a.nominal, a.evid, v) != 0;
    }
  }

  lemma {:induction false} SameSumTrues(a: NodeMap, b: NodeMap, rule: nat, hypos: seq<nat>, evid: nat, row: nat)
    requires row < NUM_ROWS
    requires forall h :: h in hypos ==> At(a, NodeKey(rule, h, evid)) == At(b, NodeKey(rule, h, evid))
    ensures SumTrues(a, rule, hypos, evid, row) == SumTrues(b, rule, hypos, evid, row)
  {
    if hypos != [] {
      SameSumTrues(a, b, rule, hypos[1..], evid, row);
    }
  }

  lemma SameDiscrepancies(a: NodeMap, b: NodeMap, rule: nat, hypos: seq<nat>, evid: nat)
    requires forall h :: h in hypos ==> At(a, NodeKey(rule, h, evid)) == At(b, NodeKey(rule, h, evid))
    ensures forall h, v :: h in hypos && 0 <= v < NUM_ROWS ==>
              Discrepancy(a, rule, hypos, h, evid, v) == Discrepancy(b, rule, hypos, h, evid, v)
  {
    forall h, v | h in hypos && 0 <= v < NUM_ROWS
      ensures Discrepancy(a, rule, hypos, h, evid, v) == Discrepancy(b, rule, hypos, h, evid, v)
    {
      SameSumTrues(a, b, rule, hypos, evid, v);
    }
  }

  /** A rule's design is consistent at an evidence item iff the association that
      wrote the item last is invertible (or there is nothing to invert to). */
  lemma {:induction false} BuildConsistentIff(nodes: NodeMap, rule: nat, hypos: seq<nat>,
                                              assocs: seq<Association>, evid: nat)
    requires Distinct(hypos)
    requires forall a :: a in assocs ==> a.nominal in hypos
    requires exists a :: a in assocs && a.evid == evid
    ensures Consistent(Built(nodes, rule, hypos, assocs), rule, hypos, evid)
       <==> LastNaming(assocs, evid).invertible || |hypos| == 1
  {
    var front, last := assocs[..|assocs| - 1], assocs[|assocs| - 1];
    var before := Built(nodes, rule, hypos, front);
    if last.evid == evid {
      InitializationConsistentIff(before, rule, hypos, last);
    } else {
      BuildConsistentIff(nodes, rule, hypos, front, evid);
      SameDiscrepancies(before, Built(nodes, rule, hypos, assocs), rule, hypos, evid);
    }
  }

  // ----- Teaching keeps every discrepancy -----

  lemma {:induction false} TaughtSum(nodes: NodeMap, t: Teaching, rest: seq<nat>, evid: nat, row: nat)
    requires WellFormed(t) && row < NUM_ROWS && evid in t.status
    requires Distinct(rest) && forall h :: h in rest ==> h in t.hypos
    ensures SumTrues(Taught(nodes, t), t.rule, rest, evid, row)
         == SumTrues(nodes, t.rule, rest, evid, row)
            + (if t.status[evid] == row && t.trueHypo in rest then 1 else 0)
  {
    if rest != [] {
      TaughtSum(nodes, t, rest[1..], evid, row);
      assert NodeKey(t.rule, rest[0], evid) in CaseKeys(t);
      assert t.trueHypo in rest <==> t.trueHypo == rest[0] || t.trueHypo in rest[1..];
      assert t.trueHypo == rest[0] ==> t.trueHypo !in rest[1..];
    }
  }

  lemma TeachingKeepsDiscrepancy(nodes: NodeMap, t: Teaching, rule: nat, hypos: seq<nat>,
                                 hypo: nat, evid: nat, row: nat)
    requires WellFormed(t) && row < NUM_ROWS
    requires Distinct(hypos) && hypo in hypos
    requires t.rule == rule ==> t.hypos == Range(hypos)
    ensures Discrepancy(Taught(nodes, t), rule, hypos, hypo, evid, row)
         == Discrepancy(nodes, rule, hypos, hypo, evid, row)
  {
    if t.rule == rule && evid in t.status {
      assert NodeKey(rule, hypo, evid) in CaseKeys(t);
      TaughtSum(nodes, t, hypos, evid, row);
    } else {
      SameSumTrues(nodes, Taught(nodes, t), rule, hypos, evid, row);
    }
  }

  lemma {:induction false} HistoryKeepsDiscrepancy(nodes: NodeMap, history: seq<Teaching>, rule: nat,
                                                   hypos: seq<nat>, hypo: nat, evid: nat, row: nat)
    requires AllWellFormed(history) && row < NUM_ROWS
    requires Distinct(hypos) && hypo in hypos
    requires forall t :: t in history && t.rule == rule ==> t.hypos == Range(hypos)
    ensures Discrepancy(TaughtAll(nodes, history), rule, hypos, hypo, evid, row)
         == Discrepancy(nodes, rule, hypos, hypo, evid, row)
  {
    if history != [] {
      var front, last := history[..|history| - 1], history[|history| - 1];
      HistoryKeepsDiscrepancy(nodes, front, rule, hypos, hypo, evid, row);
      assert last in history;
      TeachingKeepsDiscrepancy(TaughtAll(nodes, front), last, rule, hypos, hypo, evid, row);
    }
  }

  /** Over the whole life of a knowledge base - any design, then any interleaving of
      verified cases of any rules - the table of an evidence item is consistent iff the
      association that designed it is invertible or its rule has a single hypothesis. */
  lemma ConsistentForLifeIff(rule: nat, hypos: seq<nat>, assocs: seq<Association>, evid: nat,
                             nodes: NodeMap, history: seq<Teaching>)
    requires Distinct(hypos)
    requires forall a :: a in assocs ==> a.nominal in hypos
    requires exists a :: a in assocs && a.evid == evid
    requires AllWellFormed(history)
    requires forall t :: t in history && t.rule == rule ==> t.hypos == Range(hypos)
    ensures Consistent(TaughtAll(Built(nodes, rule, hypos, assocs), history), rule, hypos, evid)
       <==> LastNaming(assocs, evid).invertible || |hypos| == 1
  {
    var built := Built(nodes, rule, hypos, assocs);
    BuildConsistentIff(nodes, rule, hypos, assocs, evid);
    forall h, v | h in hypos && 0 <= v < NUM_ROWS
      ensures Discrepancy(TaughtAll(built, history), rule, hypos, h, evid, v)
           == Discrepancy(built, rule, hypos, h, evid, v)
    {
      HistoryKeepsDiscrepancy(built, history, rule, hypos, h, evid, v);
    }
  }

  // ----- Conservation: what a node's true column remembers -----

  /** Verified cases of a rule in which `hypo` was the one found true. */
  function TimesTrue(history: seq<Teaching>, rule: nat, hypo: nat): nat {
    if history == [] then 0
    else
      var last := history[|history| - 1];
      TimesTrue(history[..|history| - 1], rule, hypo)
      + if last.rule == rule && last.trueHypo == hypo then 1 else 0
  }

  function TimesTaught(history: seq<Teaching>, rule: nat): nat {
    if history == [] then 0
    else TimesTaught(history[..|history| - 1], rule) + if history[|history| - 1].rule == rule then 1 else 0
  }

  lemma {:induction false} BuiltTrueTotal(nodes: NodeMap, rule: nat, hypos: seq<nat>,
                                          assocs: seq<Association>, hypo: nat, evid: nat)
    requires hypo in hypos
    requires exists a :: a in assocs && a.evid == evid
    ensures ColumnTotal(At(Built(nodes, rule, hypos, assocs), NodeKey(rule, hypo, evid)).trues) == 1
  {
    var front, last := assocs[..|assocs| - 1], assocs[|assocs| - 1];
    if last.evid == evid {
      assert NodeKey(rule, hypo, evid) in KeysAt(rule, Range(hypos), last.evid);
    } else {
      BuiltTrueTotal(nodes, rule, hypos, front, hypo, evid);
    }
  }

  /** Each node starts with one true count and gains one for each verified case whose
      true hypothesis is its own, whatever the row: nothing is lost or counted twice. */
  lemma {:induction false} TrueTotalForLife(nodes: NodeMap, rule: nat, hypos: seq<nat>, assocs: seq<Association>,
                                            history: seq<Teaching>, hypo: nat, evid: nat)
    requires hypo in hypos
    requires exists a :: a in assocs && a.evid == evid
    requires AllWellFormed(history)
    requires forall t :: t in history && t.rule == rule ==> t.hypos == Range(hypos) && evid in t.status
    ensures ColumnTotal(At(TaughtAll(Built(nodes, rule, hypos, assocs), history), NodeKey(rule, hypo, evid)).trues)
         == 1 + TimesTrue(history, rule, hypo)
  {
    if history == [] {
      BuiltTrueTotal(nodes, rule, hypos, assocs, hypo, evid);
    } else {
      var front, last := history[..|history| - 1], history[|history| - 1];
      TrueTotalForLife(nodes, rule, hypos, assocs, front, hypo, evid);
      assert last in history;
      assert last.rule == rule ==> NodeKey(rule, hypo, evid) in CaseKeys(last);
    }
  }

  function SumTimesTrue(history: seq<Teaching>, rule: nat, hypos: seq<nat>): nat {
    if hypos == [] then 0 else TimesTrue(history, rule, hypos[0]) + SumTimesTrue(history, rule, hypos[1..])
  }

  lemma {:induction false} SumTimesTrueStep(history: seq<Teaching>, rule: nat, hypos: seq<nat>)
    requires history != [] && Distinct(hypos)
    ensures SumTimesTrue(history, rule, hypos)
         == SumTimesTrue(history[..|history| - 1], rule, hypos)
            + (if history[|history| - 1].rule == rule && history[|history| - 1].trueHypo in hypos then 1 else 0)
  {
    if hypos != [] {
      SumTimesTrueStep(history, rule, hypos[1..]);
      var last := history[|history| - 1];
      assert last.trueHypo in hypos <==> last.trueHypo == hypos[0] || last.trueHypo in hypos[1..];
      assert last.trueHypo == hypos[0] ==> last.trueHypo !in hypos[1..];
    }
  }

  lemma {:induction false} SumTimesTrueZero(rule: nat, hypos: seq<nat>)
    ensures SumTimesTrue([], rule, hypos) == 0
  {
    if hypos != [] {
      SumTimesTrueZero(rule, hypos[1..]);
    }
  }

  /** Every verified case of a rule is charged to exactly one of its hypotheses. */
  lemma {:induction false} TeachingsAreDividedAmongHypos(history: seq<Teaching>, rule: nat, hypos: seq<nat>)
    requires Distinct(hypos) && AllWellFormed(history)
    requires forall t :: t in history && t.rule == rule ==> t.hypos == Range(hypos)
    ensures SumTimesTrue(history, rule, hypos) == TimesTaught(history, rule)
  {
    if history == [] {
      SumTimesTrueZero(rule, hypos);
    } else {
      TeachingsAreDividedAmongHypos(history[..|history| - 1], rule, hypos);
      SumTimesTrueStep(history, rule, hypos);
      assert history[|history| - 1] in history;
    }
  }
}
