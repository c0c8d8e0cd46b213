/** The knowledge base object: a file of groups and count tables, an in-memory index
    (the mimic) of the nodes on file, and a cursor with an image of one table.

    The file is a value field: rule groups, hypothesis groups within them, and the
    tables by (rule, hypothesis, evidence).  A unordered map is walked in an arbitrary
    order, so every such walk here picks its next element freely. */
module KnowBase {
  import opened Nodes
  import opened GroupNames
  import opened OccurrenceTable
  import opened Tallies
  import opened Walks

  // ----- The file -----

  datatype KbFile = KbFile(rules: set<nat>, hypos: set<(nat, nat)>, nodes: NodeMap)

  predicate RuleCanBeCreated(f: KbFile, rule: nat) {
    ConvertIdToName('R', rule) != "" && rule !in f.rules
  }

  predicate HypoCanBeCreated(f: KbFile, rule: nat, hypo: nat) {
    rule in f.rules && ConvertIdToName('H', hypo) != "" && (rule, hypo) !in f.hypos
  }

  predicate NodeCanBeCreated(f: KbFile, key: NodeKey) {
    (key.rule, key.hypo) in f.hypos && ConvertIdToName('E', key.evid) != "" && key !in f.nodes
  }

  function HyposOnFile(f: KbFile, rule: nat): set<nat> {
    set p | p in f.hypos && p.0 == rule :: p.1
  }

  function EvidsOf(nodes: NodeMap, rule: nat, hypo: nat): set<nat> {
    set k | k in nodes && k.rule == rule && k.hypo == hypo :: k.evid
  }

  /** The hypotheses of a rule that have a table, and their evidence items. */
  function HyposOfRule(nodes: NodeMap, rule: nat): set<nat> {
    set k | k in nodes && k.rule == rule :: k.hypo
  }

  function EvidsOfRule(nodes: NodeMap, rule: nat): set<nat> {
    set k | k in nodes && k.rule == rule :: k.evid
  }

  /** All of them can be looked up. */
  predicate RuleKnown(known: Known, nodes: NodeMap, rule: nat) {
    HyposOfRule(nodes, rule) <= known.hypos && EvidsOfRule(nodes, rule) <= known.evids
  }

  predicate RuleOnFile(f: KbFile, rule: nat) {
    rule in f.rules
  }

  predicate HypoOnFile(f: KbFile, rule: nat, hypo: nat) {
    (rule, hypo) in f.hypos
  }

  predicate HasNames(key: NodeKey) {
    IsId(key.rule) && IsId(key.hypo) && IsId(key.evid)
  }

  ghost predicate NamesValid(f: KbFile) {
    && (forall r: nat {:trigger RuleOnFile(f, r)} :: RuleOnFile(f, r) ==> IsId(r))
    && (forall r: nat, h: nat {:trigger HypoOnFile(f, r, h)} :: HypoOnFile(f, r, h) ==> RuleOnFile(f, r) && IsId(h))
    && (forall r: nat, h: nat, e: nat {:trigger HypoOnFile(f, r, h), NodeKey(r, h, e)} ::
          NodeKey(r, h, e) in f.nodes ==> HypoOnFile(f, r, h) && IsId(e))
  }

  ghost predicate RuleInhabited(f: KbFile, rule: nat) {
    exists h: nat, e: nat :: NodeKey(rule, h, e) in f.nodes
  }

  ghost predicate HypoInhabited(f: KbFile, rule: nat, hypo: nat) {
    exists e: nat :: NodeKey(rule, hypo, e) in f.nodes
  }

  ghost predicate AllInhabited(f: KbFile, rule: nat, hypos: seq<nat>) {
    forall i :: 0 <= i < |hypos| ==> HypoInhabited(f, rule, hypos[i])
  }

  /** Every group holds something. */
  ghost predicate NoEmptyGroups(f: KbFile) {
    && (forall r: nat {:trigger RuleInhabited(f, r)} :: RuleOnFile(f, r) ==> RuleInhabited(f, r))
    && (forall r: nat, h: nat {:trigger HypoInhabited(f, r, h)} :: HypoOnFile(f, r, h) ==> HypoInhabited(f, r, h))
  }

  ghost predicate FitsListings(f: KbFile) {
    && |f.rules| <= MAX_SUBGROUPS
    && (forall r: nat {:trigger RuleOnFile(f, r)} :: RuleOnFile(f, r) ==> |HyposOnFile(f, r)| <= MAX_SUBGROUPS)
    && (forall r: nat, h: nat {:trigger HypoOnFile(f, r, h)} :: HypoOnFile(f, r, h) ==>
          |EvidsOf(f.nodes, r, h)| <= MAX_SUBGROUPS)
  }

  // ----- The mimic -----

  type Mimic = map<nat, map<nat, seq<nat>>>

  predicate Mentions(m: Mimic, k: NodeKey) {
    k.rule in m && k.hypo in m[k.rule] && k.evid in m[k.rule][k.hypo]
  }

  predicate HasAxis(m: Mimic, rule: nat) {
    rule in m
  }

  predicate HasSlot(m: Mimic, rule: nat, hypo: nat) {
    rule in m && hypo in m[rule]
  }

  /** Each level of the index is inhabited and lists an evidence item once. */
  ghost predicate Tidy(m: Mimic) {
    && (forall r: nat {:trigger HasAxis(m, r)} :: HasAxis(m, r) ==> exists h: nat :: HasSlot(m, r, h))
    && (forall r: nat, h: nat {:trigger HasSlot(m, r, h)} :: HasSlot(m, r, h) ==>
          m[r][h] != [] && Distinct(m[r][h]))
  }

  function PushBack(m: Mimic, k: NodeKey): Mimic {
    var atRule: map<nat, seq<nat>> := if k.rule in m then m[k.rule] else map[];
    var atHypo: seq<nat> := if k.hypo in atRule then atRule[k.hypo] else [];
    m[k.rule := atRule[k.hypo := atHypo + [k.evid]]]
  }

  lemma PushBackMentions(m: Mimic, k: NodeKey)
    requires Tidy(m) && !Mentions(m, k)
    ensures Tidy(PushBack(m, k))
    ensures forall j :: Mentions(PushBack(m, k), j) <==> Mentions(m, j) || j == k
  {
    var after := PushBack(m, k);
    forall r: nat, h: nat | HasSlot(after, r, h)
      ensures after[r][h] != [] && Distinct(after[r][h])
    {
      assert HasSlot(m, r, h) || (r == k.rule && h == k.hypo);
    }
    forall r: nat | HasAxis(after, r)
      ensures exists h: nat :: HasSlot(after, r, h)
    {
      if r == k.rule {
        assert HasSlot(after, r, k.hypo);
      } else {
        assert HasAxis(m, r);
        var h: nat :| HasSlot(m, r, h);
        assert HasSlot(after, r, h);
      }
    }
    forall j
      ensures Mentions(after, j) <==> Mentions(m, j) || j == k
    {
      if j.rule == k.rule && j.hypo == k.hypo && HasSlot(m, k.rule, k.hypo) {
        assert after[j.rule][j.hypo] == m[j.rule][j.hypo] + [k.evid];
      }
    }
  }

  ghost predicate SameNodes(f: KbFile, m: Mimic) {
    forall k {:trigger Mentions(m, k)} :: k in f.nodes <==> Mentions(m, k)
  }

  /** The index lists exactly the tables on file. */
  ghost predicate Indexed(f: KbFile, m: Mimic) {
    Tidy(m) && SameNodes(f, m) && NamesValid(f)
  }

  /** Index and file list exactly the same groups and tables. */
  ghost predicate Agree(f: KbFile, m: Mimic) {
    && Indexed(f, m)
    && (forall r: nat {:trigger HasAxis(m, r)} {:trigger RuleOnFile(f, r)} :: HasAxis(m, r) <==> RuleOnFile(f, r))
    && (forall r: nat, h: nat {:trigger HasSlot(m, r, h)} {:trigger HypoOnFile(f, r, h)} ::
          HasSlot(m, r, h) <==> HypoOnFile(f, r, h))
  }

  /** The index knows the groups that hold a table, and no others. */
  lemma IndexedOnHypo(f: KbFile, m: Mimic, rule: nat, hypo: nat)
    requires Indexed(f, m)
    ensures HasSlot(m, rule, hypo) <==> HypoInhabited(f, rule, hypo)
  {
    if HasSlot(m, rule, hypo) {
      assert Mentions(m, NodeKey(rule, hypo, m[rule][hypo][0]));
    }
    if HypoInhabited(f, rule, hypo) {
      var e: nat :| NodeKey(rule, hypo, e) in f.nodes;
      assert Mentions(m, NodeKey(rule, hypo, e));
    }
  }

  lemma SlotIsNamed(f: KbFile, m: Mimic, rule: nat, hypo: nat)
    requires Indexed(f, m) && HasSlot(m, rule, hypo)
    ensures IsId(rule) && IsId(hypo)
  {
    IndexedOnHypo(f, m, rule, hypo);
    InhabitedIsOnFile(f, rule, hypo);
    assert HypoOnFile(f, rule, hypo) && RuleOnFile(f, rule);
  }

  lemma IndexedOnRule(f: KbFile, m: Mimic, rule: nat)
    requires Indexed(f, m)
    ensures HasAxis(m, rule) <==> RuleInhabited(f, rule)
  {
    if HasAxis(m, rule) {
      var h: nat :| HasSlot(m, rule, h);
      IndexedOnHypo(f, m, rule, h);
      var e: nat :| NodeKey(rule, h, e) in f.nodes;
    }
    if RuleInhabited(f, rule) {
      var h: nat, e: nat :| NodeKey(rule, h, e) in f.nodes;
      assert Mentions(m, NodeKey(rule, h, e));
    }
  }

  lemma InhabitedIsOnFile(f: KbFile, rule: nat, hypo: nat)
    requires NamesValid(f)
    ensures RuleInhabited(f, rule) ==> RuleOnFile(f, rule)
    ensures HypoInhabited(f, rule, hypo) ==> HypoOnFile(f, rule, hypo) && RuleInhabited(f, rule)
  {
    if RuleInhabited(f, rule) {
      var h: nat, e: nat :| NodeKey(rule, h, e) in f.nodes;
      assert HypoOnFile(f, rule, h) ==> RuleOnFile(f, rule);
    }
    if HypoInhabited(f, rule, hypo) {
      var e: nat :| NodeKey(rule, hypo, e) in f.nodes;
      assert HypoOnFile(f, rule, hypo) || !HypoOnFile(f, rule, hypo);
    }
  }

  /** An index that lists the tables on file lists its groups too exactly if none is empty. */
  lemma AgreeIff(f: KbFile, m: Mimic)
    requires Indexed(f, m)
    ensures Agree(f, m) <==> NoEmptyGroups(f)
  {
    forall r: nat
      ensures HasAxis(m, r) <==> RuleInhabited(f, r)
      ensures RuleInhabited(f, r) ==> RuleOnFile(f, r)
    {
      IndexedOnRule(f, m, r);
      InhabitedIsOnFile(f, r, 0);
    }
    forall r: nat, h: nat
      ensures HasSlot(m, r, h) <==> HypoInhabited(f, r, h)
      ensures HypoInhabited(f, r, h) ==> HypoOnFile(f, r, h)
    {
      IndexedOnHypo(f, m, r, h);
      InhabitedIsOnFile(f, r, h);
    }
  }

  // ----- Empty groups -----

  /** An empty group is on the way to the hypothesis: the index does not know it, so the call
      that is to create it names what already exists. */
  ghost predicate Clashes(f: KbFile, rule: nat, hypo: nat) {
    || (RuleOnFile(f, rule) && !RuleInhabited(f, rule))
    || (HypoOnFile(f, rule, hypo) && !HypoInhabited(f, rule, hypo))
  }

  /** The hypotheses an empty group is on the way to. */
  ghost function Blocked(f: KbFile): iset<(nat, nat)> {
    iset rule: nat, hypo: nat | Clashes(f, rule, hypo) :: (rule, hypo)
  }

  /** A pan to the node fails. */
  ghost predicate PanFails(f: KbFile, key: NodeKey) {
    !HasNames(key) || (key.rule, key.hypo) in Blocked(f)
  }

  lemma NothingBlocked(f: KbFile, m: Mimic, rule: nat, hypo: nat)
    requires Agree(f, m)
    ensures (rule, hypo) !in Blocked(f)
  {
    AgreeIff(f, m);
    assert RuleInhabited(f, rule) || !RuleOnFile(f, rule);
    assert HypoInhabited(f, rule, hypo) || !HypoOnFile(f, rule, hypo);
  }

  /** A table added where it can be leaves the groups that are empty as they are. */
  lemma ClashesWithNode(f: KbFile, key: NodeKey, rule: nat, hypo: nat)
    requires !Clashes(f, key.rule, key.hypo)
    requires RuleOnFile(f, key.rule) || !HypoOnFile(f, key.rule, key.hypo)
    ensures Clashes(WithNode(f, key), rule, hypo) <==> Clashes(f, rule, hypo)
  {
    var after := WithNode(f, key);
    assert NodeKey(key.rule, key.hypo, key.evid) in after.nodes;
    assert RuleOnFile(after, rule) <==> RuleOnFile(f, rule) || rule == key.rule;
    assert HypoOnFile(after, rule, hypo) <==> HypoOnFile(f, rule, hypo) || (rule, hypo) == (key.rule, key.hypo);
    assert RuleInhabited(after, rule) <==> RuleInhabited(f, rule) || rule == key.rule by {
      assert forall h: nat, e: nat :: NodeKey(rule, h, e) in after.nodes ==>
        NodeKey(rule, h, e) in f.nodes || rule == key.rule;
      assert forall h: nat, e: nat :: NodeKey(rule, h, e) in f.nodes ==> NodeKey(rule, h, e) in after.nodes;
    }
    assert HypoInhabited(after, rule, hypo) <==>
      HypoInhabited(f, rule, hypo) || (rule, hypo) == (key.rule, key.hypo) by {
      assert forall e: nat :: NodeKey(rule, hypo, e) in after.nodes ==>
        NodeKey(rule, hypo, e) in f.nodes || (rule, hypo) == (key.rule, key.hypo);
      assert forall e: nat :: NodeKey(rule, hypo, e) in f.nodes ==> NodeKey(rule, hypo, e) in after.nodes;
    }
  }

  /** A group created and left empty is in the way too. */
  lemma ClashStaysAfterFailure(f: KbFile, after: KbFile, rule: nat, hypo: nat)
    requires Clashes(f, rule, hypo) && after.nodes == f.nodes && f.rules <= after.rules && f.hypos <= after.hypos
    ensures Clashes(after, rule, hypo)
  {
    assert RuleOnFile(f, rule) ==> RuleOnFile(after, rule);
    assert HypoOnFile(f, rule, hypo) ==> HypoOnFile(after, rule, hypo);
    assert RuleInhabited(after, rule) == RuleInhabited(f, rule);
    assert HypoInhabited(after, rule, hypo) == HypoInhabited(f, rule, hypo);
  }

  /** The file with one more table, in groups created as needed. */
  function WithNode(f: KbFile, key: NodeKey): KbFile {
    KbFile(f.rules + {key.rule}, f.hypos + {(key.rule, key.hypo)}, f.nodes[key := EMPTY_NODE])
  }

  lemma NoEmptyGroupsWithNode(f: KbFile, key: NodeKey)
    requires NoEmptyGroups(f)
    ensures NoEmptyGroups(WithNode(f, key))
  {
    var after := WithNode(f, key);
    forall r: nat | RuleOnFile(after, r)
      ensures RuleInhabited(after, r)
    {
      if RuleOnFile(f, r) {
        assert RuleInhabited(f, r);
        var h: nat, e: nat :| NodeKey(r, h, e) in f.nodes;
        assert NodeKey(r, h, e) in after.nodes;
      } else {
        assert NodeKey(r, key.hypo, key.evid) in after.nodes;
      }
    }
    forall r: nat, h: nat | HypoOnFile(after, r, h)
      ensures HypoInhabited(after, r, h)
    {
      if HypoOnFile(f, r, h) {
        assert HypoInhabited(f, r, h);
        var e: nat :| NodeKey(r, h, e) in f.nodes;
        assert NodeKey(r, h, e) in after.nodes;
      } else {
        assert NodeKey(r, h, key.evid) in after.nodes;
      }
    }
  }

  lemma NamesValidWithNode(f: KbFile, key: NodeKey)
    requires NamesValid(f) && IsId(key.rule) && IsId(key.hypo) && IsId(key.evid)
    ensures NamesValid(WithNode(f, key))
  {
    var after := WithNode(f, key);
    forall r: nat | RuleOnFile(after, r)
      ensures IsId(r)
    {
      assert RuleOnFile(f, r) || r == key.rule;
    }
    forall r: nat, h: nat | HypoOnFile(after, r, h)
      ensures RuleOnFile(after, r) && IsId(h)
    {
      assert HypoOnFile(f, r, h) || (r, h) == (key.rule, key.hypo);
    }
    forall r: nat, h: nat, e: nat | NodeKey(r, h, e) in after.nodes
      ensures HypoOnFile(after, r, h) && IsId(e)
    {
      assert HypoOnFile(f, r, h) || (r, h, e) == (key.rule, key.hypo, key.evid);
    }
  }

  lemma IndexedAfterCreation(f: KbFile, m: Mimic, key: NodeKey)
    requires Indexed(f, m) && key !in f.nodes
    requires IsId(key.rule) && IsId(key.hypo) && IsId(key.evid)
    ensures Indexed(WithNode(f, key), PushBack(m, key))
  {
    assert !Mentions(m, key);
    PushBackMentions(m, key);
    NamesValidWithNode(f, key);
  }

  lemma AgreeAfterCreation(f: KbFile, m: Mimic, key: NodeKey)
    requires Agree(f, m) && key !in f.nodes
    requires IsId(key.rule) && IsId(key.hypo) && IsId(key.evid)
    ensures Agree(WithNode(f, key), PushBack(m, key))
  {
    AgreeIff(f, m);
    NoEmptyGroupsWithNode(f, key);
    IndexedAfterCreation(f, m, key);
    AgreeIff(WithNode(f, key), PushBack(m, key));
  }

  /** Groups more or fewer, with the same tables in them, break the agreement. */
  lemma DisagreeOnEmptyGroups(f: KbFile, after: KbFile, m: Mimic)
    requires Agree(f, m) && after.nodes == f.nodes
    ensures Agree(after, m) <==> after == f
  {
    if Agree(after, m) {
      forall r
        ensures r in after.rules <==> r in f.rules
      {
        assert RuleOnFile(after, r) <==> HasAxis(m, r);
        assert RuleOnFile(f, r) <==> HasAxis(m, r);
      }
      forall p
        ensures p in after.hypos <==> p in f.hypos
      {
        assert HypoOnFile(after, p.0, p.1) <==> HasSlot(m, p.0, p.1);
        assert HypoOnFile(f, p.0, p.1) <==> HasSlot(m, p.0, p.1);
      }
    }
  }

  lemma IndexedWhateverTheCounts(f: KbFile, m: Mimic, nodes: NodeMap)
    requires Indexed(f, m) && nodes.Keys == f.nodes.Keys
    ensures Indexed(f.(nodes := nodes), m)
  {
    var after := f.(nodes := nodes);
    assert forall k :: k in nodes <==> k in f.nodes;
    assert forall r: nat {:trigger RuleOnFile(after, r)} :: RuleOnFile(after, r) <==> RuleOnFile(f, r);
    assert forall r: nat, h: nat {:trigger HypoOnFile(after, r, h)} :: HypoOnFile(after, r, h) <==> HypoOnFile(f, r, h);
  }

  /** Only which tables exist matters to the agreement, not what they hold. */
  lemma AgreeWhateverTheCounts(f: KbFile, m: Mimic, nodes: NodeMap)
    requires Indexed(f, m) && nodes.Keys == f.nodes.Keys
    ensures Indexed(f.(nodes := nodes), m) && (Agree(f.(nodes := nodes), m) <==> Agree(f, m))
    ensures Blocked(f.(nodes := nodes)) == Blocked(f)
  {
    var after := f.(nodes := nodes);
    assert forall k :: k in nodes <==> k in f.nodes;
    IndexedWhateverTheCounts(f, m, nodes);
    assert forall r: nat {:trigger RuleOnFile(after, r)} {:trigger RuleOnFile(f, r)} ::
        RuleOnFile(after, r) <==> RuleOnFile(f, r);
    assert forall r: nat, h: nat {:trigger HypoOnFile(after, r, h)} {:trigger HypoOnFile(f, r, h)} ::
        HypoOnFile(after, r, h) <==> HypoOnFile(f, r, h);
    assert forall r: nat {:trigger RuleInhabited(after, r)} {:trigger RuleInhabited(f, r)} ::
        RuleInhabited(after, r) <==> RuleInhabited(f, r);
    assert forall r: nat, h: nat {:trigger HypoInhabited(after, r, h)} {:trigger HypoInhabited(f, r, h)} ::
        HypoInhabited(after, r, h) <==> HypoInhabited(f, r, h);
  }

  lemma InitializedOneMore(nodes: NodeMap, rule: nat, done: set<nat>, numHypos: nat, a: Association, hypo: nat)
    ensures InitializedAt(nodes, rule, done + {hypo}, numHypos, a)
         == InitializedAt(nodes, rule, done, numHypos, a)[NodeKey(rule, hypo, a.evid) := DesignNode(numHypos, a, hypo)]
  {
    assert KeysAt(rule, done + {hypo}, a.evid) == KeysAt(rule, done, a.evid) + {NodeKey(rule, hypo, a.evid)};
  }

  // ----- Building, as far as it goes -----

  /** The hypotheses at which an association is written: the one it names, then all in turn. */
  function BuildOrder(hypos: seq<nat>, a: Association): seq<nat> {
    [a.nominal] + hypos
  }

  function TargetOf(rule: nat, hypos: seq<nat>, a: Association, i: nat): NodeKey
    requires i <= |hypos|
  {
    NodeKey(rule, BuildOrder(hypos, a)[i], a.evid)
  }

  /** How many in that order, of those at `from` on, can be panned to before one cannot. */
  ghost function Reach(f: KbFile, rule: nat, hypos: seq<nat>, a: Association, from: nat): (reached: nat)
    requires from <= |hypos| + 1
    ensures from <= reached <= |hypos| + 1
    decreases |hypos| + 1 - from
  {
    if from == |hypos| + 1 || PanFails(f, TargetOf(rule, hypos, a, from)) then from
    else Reach(f, rule, hypos, a, from + 1)
  }

  ghost predicate GoesThrough(f: KbFile, rule: nat, hypos: seq<nat>, a: Association) {
    Reach(f, rule, hypos, a, 0) == |hypos| + 1
  }

  lemma {:induction false} ReachIsFirstFailure(f: KbFile, rule: nat, hypos: seq<nat>, a: Association, from: nat)
    requires from <= |hypos| + 1
    ensures var reached := Reach(f, rule, hypos, a, from);
            && (reached <= |hypos| ==> PanFails(f, TargetOf(rule, hypos, a, reached)))
            && forall i {:trigger TargetOf(rule, hypos, a, i)} :: from <= i < reached ==>
                 !PanFails(f, TargetOf(rule, hypos, a, i))
    decreases |hypos| + 1 - from
  {
    if from <= |hypos| && !PanFails(f, TargetOf(rule, hypos, a, from)) {
      ReachIsFirstFailure(f, rule, hypos, a, from + 1);
    }
  }

  /** An association is written in full unless the pan to one of the hypotheses fails. */
  lemma GoesThroughIff(f: KbFile, rule: nat, hypos: seq<nat>, a: Association)
    requires a.nominal in hypos
    ensures GoesThrough(f, rule, hypos, a) <==> forall h :: h in hypos ==> !PanFails(f, NodeKey(rule, h, a.evid))
  {
    ReachIsFirstFailure(f, rule, hypos, a, 0);
    var reached := Reach(f, rule, hypos, a, 0);
    if reached <= |hypos| {
      assert BuildOrder(hypos, a)[reached] in hypos;
    } else {
      forall h | h in hypos
        ensures !PanFails(f, NodeKey(rule, h, a.evid))
      {
        var j :| 0 <= j < |hypos| && hypos[j] == h;
        assert TargetOf(rule, hypos, a, j + 1) == NodeKey(rule, h, a.evid);
      }
    }
  }

  lemma {:induction false} ReachesAlike(f: KbFile, now: KbFile, rule: nat, hypos: seq<nat>, a: Association, from: nat)
    requires from <= |hypos| + 1 && Blocked(f) == Blocked(now)
    ensures Reach(f, rule, hypos, a, from) == Reach(now, rule, hypos, a, from)
    decreases |hypos| + 1 - from
  {
    if from <= |hypos| {
      ReachesAlike(f, now, rule, hypos, a, from + 1);
    }
  }

  /** The tables of an association written at the first `reached` hypotheses. */
  function InitializedUpTo(nodes: NodeMap, rule: nat, hypos: seq<nat>, a: Association, reached: nat): NodeMap
    requires reached <= |hypos| + 1
  {
    InitializedAt(nodes, rule, Range(BuildOrder(hypos, a)[..reached]), |hypos|, a)
  }

  /** The tables when a build ends: with the last association, or at the first pan that fails. */
  ghost function BuiltInto(f: KbFile, rule: nat, hypos: seq<nat>, assocs: seq<Association>): NodeMap {
    if assocs == [] then f.nodes
    else
      var front, last := assocs[..|assocs| - 1], assocs[|assocs| - 1];
      var before := BuiltInto(f, rule, hypos, front);
      if AllGoThrough(f, rule, hypos, front)
      then InitializedUpTo(before, rule, hypos, last, Reach(f, rule, hypos, last, 0))
      else before
  }

  ghost predicate AllGoThrough(f: KbFile, rule: nat, hypos: seq<nat>, assocs: seq<Association>) {
    forall j :: 0 <= j < |assocs| ==> GoesThrough(f, rule, hypos, assocs[j])
  }

  /** Of the associations of a build, those written in full. */
  ghost function InFull(f: KbFile, rule: nat, hypos: seq<nat>, assocs: seq<Association>): (done: seq<Association>)
    ensures AllGoThrough(f, rule, hypos, assocs) ==> done == assocs
  {
    if AllGoThrough(f, rule, hypos, assocs) then assocs else InFull(f, rule, hypos, assocs[..|assocs| - 1])
  }

  /** The first hypotheses in that order that come before a failing pan. */
  lemma ReachedIff(f: KbFile, rule: nat, hypos: seq<nat>, a: Association, hypo: nat)
    ensures hypo in BuildOrder(hypos, a)[..Reach(f, rule, hypos, a, 0)] <==>
              && !PanFails(f, NodeKey(rule, a.nominal, a.evid))
              && (hypo == a.nominal || SomeReached(f, rule, hypos, a.evid, hypo))
  {
    var order, reached := BuildOrder(hypos, a), Reach(f, rule, hypos, a, 0);
    ReachIsFirstFailure(f, rule, hypos, a, 0);
    assert TargetOf(rule, hypos, a, 0) == NodeKey(rule, a.nominal, a.evid);
    assert forall j :: 0 <= j < |hypos| ==> TargetOf(rule, hypos, a, j + 1) == NodeKey(rule, hypos[j], a.evid);
    if i :| 0 < i < reached && order[i] == hypo {
      assert hypos[i - 1] == hypo;
      forall j | 0 <= j <= i - 1
        ensures !PanFails(f, NodeKey(rule, hypos[j], a.evid))
      {
        assert !PanFails(f, TargetOf(rule, hypos, a, j + 1));
      }
      assert Reached(f, rule, hypos, a.evid, i - 1);
    }
    if reached > 0 && SomeReached(f, rule, hypos, a.evid, hypo) {
      var i: nat :| i < |hypos| && hypos[i] == hypo && Reached(f, rule, hypos, a.evid, i);
      if reached <= |hypos| {
        assert TargetOf(rule, hypos, a, reached) == NodeKey(rule, hypos[reached - 1], a.evid);
      }
      assert order[..reached][i + 1] == hypo;
    }
  }

  /** The pans to the first hypotheses, up to this one, all succeed. */
  ghost predicate Reached(f: KbFile, rule: nat, hypos: seq<nat>, evid: nat, i: nat) {
    i < |hypos| && forall j :: 0 <= j <= i ==> !PanFails(f, NodeKey(rule, hypos[j], evid))
  }

  ghost predicate SomeReached(f: KbFile, rule: nat, hypos: seq<nat>, evid: nat, hypo: nat) {
    exists i: nat :: i < |hypos| && hypos[i] == hypo && Reached(f, rule, hypos, evid, i)
  }

  /** The tables of an association that are written: none unless the pan to the hypothesis it names
      succeeds, and then that one, and of the others those in front of the first that fails. */
  lemma WrittenIff(f: KbFile, rule: nat, hypos: seq<nat>, a: Association, key: NodeKey)
    ensures var after := InitializedUpTo(f.nodes, rule, hypos, a, Reach(f, rule, hypos, a, 0));
            At(after, key)
            == if key.rule == rule && key.evid == a.evid && !PanFails(f, NodeKey(rule, a.nominal, a.evid))
                  && (key.hypo == a.nominal || SomeReached(f, rule, hypos, a.evid, key.hypo))
               then DesignNode(|hypos|, a, key.hypo) else At(f.nodes, key)
  {
    ReachedIff(f, rule, hypos, a, key.hypo);
    var at := Range(BuildOrder(hypos, a)[..Reach(f, rule, hypos, a, 0)]);
    assert key in KeysAt(rule, at, a.evid) <==> key.rule == rule && key.evid == a.evid && key.hypo in at;
  }

  lemma InitializedInFull(nodes: NodeMap, rule: nat, hypos: seq<nat>, a: Association)
    requires a.nominal in hypos
    ensures InitializedUpTo(nodes, rule, hypos, a, |hypos| + 1) == Initialized(nodes, rule, hypos, a)
  {
    assert BuildOrder(hypos, a)[..|hypos| + 1] == BuildOrder(hypos, a);
    assert Range(BuildOrder(hypos, a)) == Range(hypos);
  }

  /** A build no pan of which fails is the design. */
  lemma {:induction false} BuiltInFull(f: KbFile, rule: nat, hypos: seq<nat>, assocs: seq<Association>)
    requires AllGoThrough(f, rule, hypos, assocs) && forall a :: a in assocs ==> a.nominal in hypos
    ensures BuiltInto(f, rule, hypos, assocs) == Built(f.nodes, rule, hypos, assocs)
  {
    if assocs != [] {
      var front, last := assocs[..|assocs| - 1], assocs[|assocs| - 1];
      assert AllGoThrough(f, rule, hypos, front);
      assert GoesThrough(f, rule, hypos, last) && last in assocs;
      BuiltInFull(f, rule, hypos, front);
      InitializedInFull(BuiltInto(f, rule, hypos, front), rule, hypos, last);
    }
  }

  /** Where no pan fails there is nothing in the way: the ids have names and no group is empty. */
  lemma AllGoThroughIff(f: KbFile, rule: nat, hypos: seq<nat>, assocs: seq<Association>)
    requires forall a :: a in assocs ==> a.nominal in hypos
    ensures AllGoThrough(f, rule, hypos, assocs)
       <==> forall a, h :: a in assocs && h in hypos ==> !PanFails(f, NodeKey(rule, h, a.evid))
  {
    forall a | a in assocs
      ensures GoesThrough(f, rule, hypos, a) <==> forall h :: h in hypos ==> !PanFails(f, NodeKey(rule, h, a.evid))
    {
      GoesThroughIff(f, rule, hypos, a);
    }
  }

  /** Past the association at which it ends, a build is not affected by those that follow. */
  lemma {:induction false} BuildHasEnded(f: KbFile, rule: nat, hypos: seq<nat>, assocs: seq<Association>, n: nat)
    requires n <= |assocs| && !AllGoThrough(f, rule, hypos, assocs[..n])
    ensures !AllGoThrough(f, rule, hypos, assocs)
    ensures BuiltInto(f, rule, hypos, assocs) == BuiltInto(f, rule, hypos, assocs[..n])
    ensures InFull(f, rule, hypos, assocs) == InFull(f, rule, hypos, assocs[..n])
  {
    var j :| 0 <= j < n && !GoesThrough(f, rule, hypos, assocs[..n][j]);
    assert !GoesThrough(f, rule, hypos, assocs[j]);
    if n == |assocs| {
      assert assocs[..n] == assocs;
    } else {
      BuildHasEnded(f, rule, hypos, assocs[..|assocs| - 1], n);
      assert assocs[..|assocs| - 1][..n] == assocs[..n];
    }
  }

  lemma BuiltOneMore(f: KbFile, rule: nat, hypos: seq<nat>, front: seq<Association>, last: Association)
    ensures AllGoThrough(f, rule, hypos, front + [last]) <==>
              AllGoThrough(f, rule, hypos, front) && GoesThrough(f, rule, hypos, last)
    ensures BuiltInto(f, rule, hypos, front + [last])
         == if AllGoThrough(f, rule, hypos, front)
            then InitializedUpTo(BuiltInto(f, rule, hypos, front), rule, hypos, last, Reach(f, rule, hypos, last, 0))
            else BuiltInto(f, rule, hypos, front)
  {
    var assocs := front + [last];
    assert assocs[..|assocs| - 1] == front && assocs[|front|] == last;
    assert forall j :: 0 <= j < |front| ==> front[j] == assocs[j];
  }

  /** A build in two parts, the first of which went through. */
  lemma {:induction false} BuiltInTwo(f: KbFile, now: KbFile, rule: nat, hypos: seq<nat>,
                                      first: seq<Association>, second: seq<Association>)
    requires Blocked(f) == Blocked(now) && AllGoThrough(f, rule, hypos, first)
    requires now.nodes == BuiltInto(f, rule, hypos, first)
    ensures BuiltInto(f, rule, hypos, first + second) == BuiltInto(now, rule, hypos, second)
    ensures AllGoThrough(f, rule, hypos, first + second) <==> AllGoThrough(now, rule, hypos, second)
    ensures InFull(f, rule, hypos, first + second) == first + InFull(now, rule, hypos, second)
  {
    if second == [] {
      assert first + second == first;
    } else {
      var front, last := second[..|second| - 1], second[|second| - 1];
      assert second == front + [last];
      assert first + second == (first + front) + [last];
      assert (first + second)[..|first + second| - 1] == first + front;
      BuiltInTwo(f, now, rule, hypos, first, front);
      BuiltOneMore(f, rule, hypos, first + front, last);
      BuiltOneMore(now, rule, hypos, front, last);
      ReachesAlike(f, now, rule, hypos, last, 0);
    }
  }

  /** And so is a longer build of which they are the beginning, if the second did not. */
  lemma BuildGoesOn(f: KbFile, now: KbFile, after: NodeMap, rule: nat, hypos: seq<nat>,
                    first: seq<Association>, second: seq<Association>, assocs: seq<Association>)
    requires Blocked(f) == Blocked(now) && AllGoThrough(f, rule, hypos, first)
    requires now.nodes == BuiltInto(f, rule, hypos, first) && after == BuiltInto(now, rule, hypos, second)
    requires first + second <= assocs
    ensures AllGoThrough(now, rule, hypos, second) ==>
              AllGoThrough(f, rule, hypos, first + second) && after == BuiltInto(f, rule, hypos, first + second)
    ensures !AllGoThrough(now, rule, hypos, second) ==>
              && !AllGoThrough(f, rule, hypos, assocs) && after == BuiltInto(f, rule, hypos, assocs)
              && InFull(f, rule, hypos, assocs) == first + InFull(now, rule, hypos, second)
  {
    BuiltInTwo(f, now, rule, hypos, first, second);
    assert assocs[..|first + second|] == first + second;
    if !AllGoThrough(now, rule, hypos, second) {
      BuildHasEnded(f, rule, hypos, assocs, |first + second|);
    }
  }

  /** One table more, or the pan to it fails. */
  lemma InitializedNext(f: KbFile, rule: nat, hypos: seq<nat>, a: Association, i: nat)
    requires i <= |hypos|
    ensures var key, hypo := TargetOf(rule, hypos, a, i), BuildOrder(hypos, a)[i];
            && key == NodeKey(rule, hypo, a.evid)
            && Reach(f, rule, hypos, a, i) == (if PanFails(f, key) then i else Reach(f, rule, hypos, a, i + 1))
            && InitializedUpTo(f.nodes, rule, hypos, a, i + 1)
            == InitializedUpTo(f.nodes, rule, hypos, a, i)[key := DesignNode(|hypos|, a, hypo)]
  {
    var order := BuildOrder(hypos, a);
    assert order[..i + 1] == order[..i] + [order[i]];
    assert Range(order[..i + 1]) == Range(order[..i]) + {order[i]};
    InitializedOneMore(f.nodes, rule, Range(order[..i]), |hypos|, a, order[i]);
  }

  /** The one the association names is not written again. */
  lemma NominalAgain(f: KbFile, rule: nat, hypos: seq<nat>, a: Association, i: nat)
    requires 1 <= i <= |hypos| && BuildOrder(hypos, a)[i] == a.nominal
    requires Reach(f, rule, hypos, a, 0) > 0
    ensures Reach(f, rule, hypos, a, i) == Reach(f, rule, hypos, a, i + 1)
    ensures InitializedUpTo(f.nodes, rule, hypos, a, i + 1) == InitializedUpTo(f.nodes, rule, hypos, a, i)
  {
    var order := BuildOrder(hypos, a);
    assert TargetOf(rule, hypos, a, i) == TargetOf(rule, hypos, a, 0);
    assert order[0] in order[..i];
    assert order[..i + 1] == order[..i] + [order[i]];
    assert Range(order[..i + 1]) == Range(order[..i]);
  }

  lemma OverwrittenWhereTouched(nodes: NodeMap, key: NodeKey, node: Knode)
    ensures Touched(nodes, {key})[key := node] == nodes[key := node]
  {
  }

  // ----- Walking the index -----

  predicate Walkable(m: Mimic, rule: nat, walk: seq<nat>) {
    forall i :: 0 <= i < |walk| ==> HasSlot(m, rule, walk[i])
  }

  /** The evidence items seen on the way along some hypotheses of a rule. */
  function EvidsMet(m: Mimic, rule: nat, walk: seq<nat>): set<nat>
    requires Walkable(m, rule, walk)
  {
    if walk == [] then {}
    else
      var last := walk[|walk| - 1];
      EvidsMet(m, rule, walk[..|walk| - 1]) + Range(m[rule][last])
  }

  /** A fresh record for each hypothesis, with the true counts of its own evidence items. */
  ghost predicate PriorsCounted(nodes: NodeMap, m: Mimic, rule: nat, hypos: seq<HypoTally>) {
    forall i :: 0 <= i < |hypos| ==>
      && HasSlot(m, rule, hypos[i].id)
      && hypos[i] == NewHypo(hypos[i].id, PriorCount(nodes, rule, hypos[i].id, m[rule][hypos[i].id]))
  }

  lemma {:induction false} EvidsMetHas(m: Mimic, rule: nat, walk: seq<nat>, e: nat)
    requires Walkable(m, rule, walk)
    ensures e in EvidsMet(m, rule, walk) <==> exists h :: h in walk && Mentions(m, NodeKey(rule, h, e))
  {
    if walk != [] {
      var front, last := walk[..|walk| - 1], walk[|walk| - 1];
      EvidsMetHas(m, rule, front, e);
      assert forall h :: h in walk <==> h in front || h == last;
      assert Mentions(m, NodeKey(rule, last, e)) <==> e in m[rule][last];
    }
  }

  lemma HyposWalkedAreOnFile(f: KbFile, m: Mimic, rule: nat, walk: seq<nat>)
    requires Indexed(f, m) && rule in m && Range(walk) == m[rule].Keys
    ensures Range(walk) == HyposOfRule(f.nodes, rule)
  {
    forall h: nat
      ensures h in Range(walk) <==> h in HyposOfRule(f.nodes, rule)
    {
      IndexedOnHypo(f, m, rule, h);
      InhabitedIsOfRule(f, rule, h);
      assert h in Range(walk) <==> HasSlot(m, rule, h);
    }
  }

  lemma InhabitedIsOfRule(f: KbFile, rule: nat, hypo: nat)
    ensures hypo in HyposOfRule(f.nodes, rule) <==> HypoInhabited(f, rule, hypo)
  {
    if hypo in HyposOfRule(f.nodes, rule) {
      var k :| k in f.nodes && k.rule == rule && k.hypo == hypo;
      assert k == NodeKey(rule, hypo, k.evid);
    }
  }

  /** In agreement, these are all the hypothesis groups of the rule. */
  lemma HyposOfRuleAreOnFile(f: KbFile, m: Mimic, rule: nat)
    requires Agree(f, m)
    ensures HyposOfRule(f.nodes, rule) == HyposOnFile(f, rule)
  {
    forall h: nat
      ensures h in HyposOfRule(f.nodes, rule) <==> h in HyposOnFile(f, rule)
    {
      IndexedOnHypo(f, m, rule, h);
      InhabitedIsOfRule(f, rule, h);
      assert h in HyposOnFile(f, rule) <==> HypoOnFile(f, rule, h) by {
        assert (rule, h) in f.hypos <==> HypoOnFile(f, rule, h);
      }
    }
  }

  lemma EvidsMetAreOnFile(f: KbFile, m: Mimic, rule: nat, walk: seq<nat>)
    requires Indexed(f, m) && rule in m && Range(walk) == m[rule].Keys
    requires Walkable(m, rule, walk)
    ensures EvidsMet(m, rule, walk) == EvidsOfRule(f.nodes, rule)
  {
    forall e: nat
      ensures e in EvidsMet(m, rule, walk) <==> e in EvidsOfRule(f.nodes, rule)
    {
      EvidsMetHas(m, rule, walk, e);
      if e in EvidsMet(m, rule, walk) {
        var h :| h in walk && Mentions(m, NodeKey(rule, h, e));
        assert NodeKey(rule, h, e) in f.nodes;
      }
      if e in EvidsOfRule(f.nodes, rule) {
        var k :| k in f.nodes && k.rule == rule && k.evid == e;
        assert k == NodeKey(rule, k.hypo, e) && Mentions(m, k);
        assert k.hypo in Range(walk);
      }
    }
  }

  /** A walk over all hypotheses of a rule meets what has a table on file for it. */
  lemma WalkMeetsAll(f: KbFile, m: Mimic, rule: nat, walk: seq<nat>)
    requires Indexed(f, m) && rule in m && Range(walk) == m[rule].Keys
    ensures walk != [] && Walkable(m, rule, walk)
    ensures Range(walk) == HyposOfRule(f.nodes, rule) && EvidsMet(m, rule, walk) == EvidsOfRule(f.nodes, rule)
  {
    assert forall h :: h in walk ==> h in Range(walk);
    assert HasAxis(m, rule);
    var h: nat :| HasSlot(m, rule, h);
    assert h in Range(walk);
    HyposWalkedAreOnFile(f, m, rule, walk);
    EvidsMetAreOnFile(f, m, rule, walk);
  }

  lemma EvidsMetOneMore(m: Mimic, rule: nat, walk: seq<nat>, i: nat)
    requires Walkable(m, rule, walk) && i < |walk|
    ensures HasSlot(m, rule, walk[i])
    ensures EvidsMet(m, rule, walk[..i + 1]) == EvidsMet(m, rule, walk[..i]) + Range(m[rule][walk[i]])
  {
    assert walk[..i + 1][..i] == walk[..i];
  }

  /** The records of the hypotheses walked, the items met at them, and the sum of the priors. */
  ghost predicate AreTallies(nodes: NodeMap, m: Mimic, rule: nat, walk: seq<nat>,
                             hypos: seq<HypoTally>, evidsMet: set<nat>, sum: int)
    requires Walkable(m, rule, walk)
  {
    && HypoIds(hypos) == walk && PriorsCounted(nodes, m, rule, hypos)
    && evidsMet == EvidsMet(m, rule, walk) && sum == SumPriors(hypos)
  }

  lemma TalliesOneMore(nodes: NodeMap, m: Mimic, rule: nat, walk: seq<nat>,
                       hypos: seq<HypoTally>, evidsMet: set<nat>, sum: int, t: HypoTally)
    requires Walkable(m, rule, walk) && AreTallies(nodes, m, rule, walk, hypos, evidsMet, sum)
    requires HasSlot(m, rule, t.id) && t == NewHypo(t.id, PriorCount(nodes, rule, t.id, m[rule][t.id]))
    ensures Walkable(m, rule, walk + [t.id])
    ensures AreTallies(nodes, m, rule, walk + [t.id], hypos + [t], evidsMet + Range(m[rule][t.id]), sum + t.priorCount)
  {
    var more := walk + [t.id];
    assert more[..|walk|] == walk;
    EvidsMetOneMore(m, rule, more, |walk|);
    assert more[..|walk| + 1] == more;
    SumPriorsOneMore(hypos, t);
    assert HypoIds(hypos + [t]) == more;
  }

  lemma EvidsOfOneAreMet(m: Mimic, rule: nat, walk: seq<nat>, i: nat)
    requires Walkable(m, rule, walk) && i < |walk|
    ensures Range(m[rule][walk[i]]) <= EvidsMet(m, rule, walk)
  {
    forall e | e in Range(m[rule][walk[i]])
      ensures e in EvidsMet(m, rule, walk)
    {
      EvidsMetHas(m, rule, walk, e);
      assert walk[i] in walk && Mentions(m, NodeKey(rule, walk[i], e));
    }
  }

  lemma NothingOfRule(f: KbFile, m: Mimic, rule: nat)
    requires Indexed(f, m) && rule !in m
    ensures HyposOfRule(f.nodes, rule) == {} && EvidsOfRule(f.nodes, rule) == {}
  {
    forall k | k in f.nodes
      ensures k.rule != rule
    {
      assert Mentions(m, k);
    }
  }

  // ----- Creating what is missing -----

  datatype Progress = KnowsNothing | KnowsRule | KnowsHypo | KnowsEvid

  /** The index knows the way so far and no farther. */
  ghost predicate CanExtend(f: KbFile, progress: Progress, key: NodeKey) {
    && NamesValid(f) && key !in f.nodes && key.rule > 0 && key.hypo > 0 && key.evid > 0
    && progress != KnowsEvid
    && (progress == KnowsNothing <==> !RuleInhabited(f, key.rule))
    && (progress != KnowsNothing ==> RuleOnFile(f, key.rule))
    && (progress == KnowsHypo ==> HypoOnFile(f, key.rule, key.hypo))
  }

  /** No creation call for what the index does not know names what is there. */
  predicate NamesNothingThere(f: KbFile, progress: Progress, key: NodeKey) {
    && (progress == KnowsNothing ==> !RuleOnFile(f, key.rule))
    && (progress == KnowsRule ==> !HypoOnFile(f, key.rule, key.hypo))
  }

  /** The file after the creation calls that come before the first that fails. */
  ghost function LeftBy(f: KbFile, key: NodeKey): KbFile {
    var rules := if !RuleOnFile(f, key.rule) && IsId(key.rule) then {key.rule} else {};
    var hypos := if (rules != {} || RuleInhabited(f, key.rule)) && !HypoOnFile(f, key.rule, key.hypo) && IsId(key.hypo)
                 then {(key.rule, key.hypo)} else {};
    KbFile(f.rules + rules, f.hypos + hypos, f.nodes)
  }

  /** A failing pan to the node creates a group before it fails. */
  predicate LeavesEmptyGroup(f: KbFile, key: NodeKey) {
    || (!RuleOnFile(f, key.rule) && IsId(key.rule))
    || (RuleOnFile(f, key.rule) && !HypoOnFile(f, key.rule, key.hypo) && IsId(key.hypo))
  }

  /** With no empty group so far, that makes all the difference. */
  lemma LeftUnlessEmpty(f: KbFile, m: Mimic, key: NodeKey)
    requires Agree(f, m)
    ensures LeftBy(f, key) == f <==> !LeavesEmptyGroup(f, key)
  {
    AgreeIff(f, m);
    InhabitedIsOnFile(f, key.rule, key.hypo);
    assert HypoOnFile(f, key.rule, key.hypo) ==> RuleOnFile(f, key.rule);
    if !RuleOnFile(f, key.rule) && IsId(key.rule) {
      assert key.rule in LeftBy(f, key).rules && key.rule !in f.rules;
    } else if LeavesEmptyGroup(f, key) {
      assert (key.rule, key.hypo) in LeftBy(f, key).hypos && (key.rule, key.hypo) !in f.hypos;
    } else {
      assert LeftBy(f, key).rules == f.rules && LeftBy(f, key).hypos == f.hypos;
    }
  }

  /** The group left is in the way of every later pan to the hypothesis. */
  lemma LeftInTheWay(f: KbFile, m: Mimic, key: NodeKey, evid: nat)
    requires Agree(f, m) && LeavesEmptyGroup(f, key)
    ensures PanFails(LeftBy(f, key), NodeKey(key.rule, key.hypo, evid))
  {
    var left := LeftBy(f, key);
    AgreeIff(f, m);
    InhabitedIsOnFile(f, key.rule, key.hypo);
    assert RuleInhabited(left, key.rule) == RuleInhabited(f, key.rule);
    assert HypoInhabited(left, key.rule, key.hypo) == HypoInhabited(f, key.rule, key.hypo);
    assert RuleOnFile(left, key.rule);
    if RuleOnFile(f, key.rule) {
      assert HypoOnFile(left, key.rule, key.hypo);
    }
  }

  /** On a new file a pan to the thousandth item, whose id has no name, leaves a rule and a
      hypothesis behind at which no item can be designed any more. */
  lemma NamelessItemSpoilsHypo(evid: nat)
    ensures var f, key := KbFile({}, {}, map[]), NodeKey(1, 1, 1000);
            && Agree(f, map[]) && PanFails(f, key) && LeftBy(f, key) == KbFile({1}, {(1, 1)}, map[])
            && !Agree(LeftBy(f, key), map[]) && PanFails(LeftBy(f, key), NodeKey(1, 1, evid))
  {
    var f, key := KbFile({}, {}, map[]), NodeKey(1, 1, 1000);
    LeftInTheWay(f, map[], key, evid);
    assert RuleOnFile(LeftBy(f, key), 1) && !HasAxis(map[], 1);
  }

  ghost predicate OnlyEmptyGroupsMore(f: KbFile, after: KbFile) {
    NamesValid(after) && after.nodes == f.nodes && f.rules <= after.rules && f.hypos <= after.hypos
  }

  /** One rule, or one rule and a hypothesis of it, more. */
  lemma GroupsMore(f: KbFile, after: KbFile)
    requires NamesValid(f) && after.nodes == f.nodes && f.rules <= after.rules && f.hypos <= after.hypos
    requires forall r :: r in after.rules ==> r in f.rules || IsId(r)
    requires forall p :: p in after.hypos ==> p in f.hypos || (p.0 in after.rules && IsId(p.1))
    ensures OnlyEmptyGroupsMore(f, after)
  {
    forall r: nat | RuleOnFile(after, r)
      ensures IsId(r)
    {
      assert RuleOnFile(f, r) || IsId(r);
    }
    forall r: nat, h: nat | HypoOnFile(after, r, h)
      ensures RuleOnFile(after, r) && IsId(h)
    {
      assert HypoOnFile(f, r, h) || (r in after.rules && IsId(h));
    }
    forall r: nat, h: nat, e: nat | NodeKey(r, h, e) in after.nodes
      ensures HypoOnFile(after, r, h) && IsId(e)
    {
      assert HypoOnFile(f, r, h) || !HypoOnFile(f, r, h);
    }
  }

  lemma AfterFailure(f: KbFile, after: KbFile, m: Mimic)
    requires Indexed(f, m) && OnlyEmptyGroupsMore(f, after)
    ensures Indexed(after, m)
    ensures Agree(f, m) ==> (Agree(after, m) <==> after == f)
    ensures Blocked(f) <= Blocked(after)
  {
    if Agree(f, m) {
      DisagreeOnEmptyGroups(f, after, m);
    }
    forall r: nat, h: nat | Clashes(f, r, h)
      ensures Clashes(after, r, h)
    {
      ClashStaysAfterFailure(f, after, r, h);
    }
  }

  lemma AfterCreation(f: KbFile, m: Mimic, key: NodeKey)
    requires Indexed(f, m) && key !in f.nodes && HasNames(key) && !Clashes(f, key.rule, key.hypo)
    ensures Indexed(WithNode(f, key), PushBack(m, key))
    ensures Agree(f, m) ==> Agree(WithNode(f, key), PushBack(m, key))
    ensures Blocked(WithNode(f, key)) == Blocked(f)
  {
    IndexedAfterCreation(f, m, key);
    if Agree(f, m) {
      AgreeAfterCreation(f, m, key);
    }
    assert HypoOnFile(f, key.rule, key.hypo) ==> RuleOnFile(f, key.rule);
    forall r: nat, h: nat
      ensures Clashes(f, r, h) <==> Clashes(WithNode(f, key), r, h)
    {
      ClashesWithNode(f, key, r, h);
    }
  }

  lemma InhabitedStays(f: KbFile, after: KbFile, rule: nat, hypo: nat)
    requires f.nodes.Keys <= after.nodes.Keys && HypoInhabited(f, rule, hypo)
    ensures HypoInhabited(after, rule, hypo)
  {
    var e: nat :| NodeKey(rule, hypo, e) in f.nodes;
    assert NodeKey(rule, hypo, e) in f.nodes.Keys;
  }

  lemma InhabitedIsFree(f: KbFile, rule: nat, hypo: nat)
    requires HypoInhabited(f, rule, hypo)
    ensures (rule, hypo) !in Blocked(f)
  {
    var e: nat :| NodeKey(rule, hypo, e) in f.nodes;
    assert RuleInhabited(f, rule);
  }

  lemma AgreeWithMoreTables(f: KbFile, m: Mimic, after: KbFile, n: Mimic)
    requires Agree(f, m) && Indexed(after, n)
    requires after.rules == f.rules && after.hypos == f.hypos && f.nodes.Keys <= after.nodes.Keys
    ensures Agree(after, n)
  {
    AgreeIff(f, m);
    forall r: nat, h: nat | HypoOnFile(after, r, h)
      ensures HypoInhabited(after, r, h)
    {
      assert HypoOnFile(f, r, h);
      InhabitedStays(f, after, r, h);
    }
    forall r: nat | RuleOnFile(after, r)
      ensures RuleInhabited(after, r)
    {
      assert RuleOnFile(f, r) && RuleInhabited(f, r);
      var h: nat, e: nat :| NodeKey(r, h, e) in f.nodes;
      assert NodeKey(r, h, e) in f.nodes.Keys;
    }
    AgreeIff(after, n);
  }

  // ----- The object -----

  datatype Layout = Layout(rules: set<nat>, hypos: set<(nat, nat)>, known: Known)

  class KnowledgeBase {
    var file: KbFile
    var hyposById: set<nat>
    var evidsById: set<nat>
    var nodeImage: Knode
    var mimicBase: Mimic
    var ruleX: nat
    var hypoY: nat
    var evidZ: nat
    var numNodesActive: nat
    var cursorAtActiveNode: bool
    var kbaseIsPreexistantHdf5File: bool

    /** The index lists the tables on file, whether or not there are empty groups besides. */
    ghost predicate Sound()
      reads this
    {
      Indexed(file, mimicBase) && NonNegative(file.nodes)
    }

    /** There are none: index and file agree on everything. */
    ghost predicate Valid()
      reads this
    {
      Agree(file, mimicBase) && Sound()
    }

    /** The cursor, if it is said to be on a node, is on one with a table.  It need not be after
        a look-up by id has failed, but every pan begins by saying that it is on none. */
    ghost predicate Aligned()
      reads this
    {
      Sound() && (cursorAtActiveNode ==> Cursor() in file.nodes)
    }

    /** The hypotheses and evidence items of which there are objects to look up. */
    function Lookups(): Known
      reads this
    {
      Known(hyposById, evidsById)
    }

    /** The groups on file, and what can be looked up: no case changes any of it. */
    function LayoutNow(): Layout
      reads this
    {
      Layout(file.rules, file.hypos, Lookups())
    }

    /** The same as `Sound`, stated so that those who only pass a knowledge base along need not
        look into it: of every `f` and `m` that are its own, and unfolded where `Indexed` is named
        of them. */
    ghost predicate InOrder()
      reads this
    {
      forall f, m {:trigger Indexed(f, m)} :: f == file && m == mimicBase ==> Indexed(f, m) && NonNegative(f.nodes)
    }

    lemma OrderMeans()
      ensures InOrder() <==> Sound()
    {
      assert Indexed(file, mimicBase) || !Indexed(file, mimicBase);
    }

    /** Index and file agree on the groups too, stated likewise. */
    ghost predicate Agrees()
      reads this
    {
      forall f, m {:trigger Agree(f, m)} :: f == file && m == mimicBase ==> Agree(f, m)
    }

    lemma AgreesMeans()
      ensures Agrees() <==> Agree(file, mimicBase)
    {
      assert Agree(file, mimicBase) || !Agree(file, mimicBase);
    }

    /** The index lists what is on file, and pans to these hypotheses of a rule cannot fail, nor
        create more than a table each: they have one. */
    ghost predicate Serves(rule: nat, hypos: seq<nat>)
      reads this
    {
      && NonNegative(file.nodes)
      && forall f, m {:trigger Indexed(f, m)} :: f == file && m == mimicBase ==>
           Indexed(f, m) && AllInhabited(f, rule, hypos)
    }

    lemma ServesMeans(rule: nat, hypos: seq<nat>)
      ensures Serves(rule, hypos) <==> Sound() && AllInhabited(file, rule, hypos)
    {
      assert Indexed(file, mimicBase) || !Indexed(file, mimicBase);
    }

    /** A rule with nothing on file has nothing to look up. */
    lemma NothingUnknown(rule: nat)
      ensures HyposOfRule(file.nodes, rule) == {} ==> RuleKnown(Lookups(), file.nodes, rule)
    {
      forall k | k in file.nodes && k.rule == rule
        ensures k.hypo in HyposOfRule(file.nodes, rule)
      {
      }
    }

    /** Tables more do no harm to that. */
    lemma ServesOn(before: KbFile, rule: nat, hypos: seq<nat>)
      requires AllInhabited(before, rule, hypos) && Sound() && before.nodes.Keys <= file.nodes.Keys
      ensures Serves(rule, hypos)
    {
      forall i | 0 <= i < |hypos|
        ensures HypoInhabited(file, rule, hypos[i])
      {
        InhabitedStays(before, file, rule, hypos[i]);
      }
      ServesMeans(rule, hypos);
    }

    /** Nor do they make a group empty. */
    twostate lemma StaysInAgreement()
      requires old(Agrees()) && Sound() && old(file.nodes).Keys <= file.nodes.Keys && LayoutNow() == old(LayoutNow())
      ensures Agrees()
    {
      assert Agree(old(file), old(mimicBase));
      AgreeWithMoreTables(old(file), old(mimicBase), file, mimicBase);
    }

    function Cursor(): NodeKey
      reads this
    {
      NodeKey(ruleX, hypoY, evidZ)
    }

    /** Opens the knowledge base on a file left by an earlier session, or on a new one. */
    constructor (onDisk: KbFile)
      requires NamesValid(onDisk) && NonNegative(onDisk.nodes) && FitsListings(onDisk)
      ensures Aligned() && (Valid() <==> NoEmptyGroups(onDisk)) && file == onDisk && !cursorAtActiveNode
      ensures Lookups() == Known({}, {})
      ensures kbaseIsPreexistantHdf5File <==> onDisk.rules != {}
    {
      file := onDisk;
      hyposById, evidsById := {}, {};
      nodeImage := EMPTY_NODE;
      mimicBase := map[];
      ruleX, hypoY, evidZ := 0, 0, 0;
      numNodesActive := 0;
      cursorAtActiveNode := false;
      kbaseIsPreexistantHdf5File := false;
      new;
      kbaseIsPreexistantHdf5File := RebuildMimicFromFile();
    }

    /** Recovers the index from the file alone. */
    method RebuildMimicFromFile() returns (reply: bool)
      requires NamesValid(file) && FitsListings(file)
      modifies this`mimicBase
      ensures Tidy(mimicBase) && SameNodes(file, mimicBase)
      ensures reply <==> file.rules != {}
      ensures Indexed(file, mimicBase) && (Agree(file, mimicBase) <==> NoEmptyGroups(file))
    {
      mimicBase := map[];
      assert forall r :: r in file.rules ==> RuleOnFile(file, r);
      forall k | k in file.nodes
        ensures k.rule in file.rules
      {
        assert k == NodeKey(k.rule, k.hypo, k.evid) && HypoOnFile(file, k.rule, k.hypo);
      }
      var rules := ListSubgroups(file.rules, 'R');
      if |rules| == 0 {
        assert file.rules == {};
        AgreeIff(file, mimicBase);
        return false;
      }
      for i := 0 to |rules|
        invariant Tidy(mimicBase)
        invariant forall k :: Mentions(mimicBase, k) <==> k in file.nodes && k.rule in rules[..i]
      {
        assert RuleOnFile(file, rules[i]);
        RebuildRule(rules[i]);
        forall k
          ensures Mentions(mimicBase, k) <==> k in file.nodes && k.rule in rules[..i + 1]
        {
          assert k.rule in rules[..i + 1] <==> k.rule in rules[..i] || k.rule == rules[i];
        }
      }
      assert rules[..|rules|] == rules;
      assert rules[0] in Range(rules);
      AgreeIff(file, mimicBase);
      return true;
    }

    method RebuildRule(rule: nat)
      requires NamesValid(file) && FitsListings(file) && RuleOnFile(file, rule)
      requires Tidy(mimicBase) && forall k :: Mentions(mimicBase, k) ==> k.rule != rule
      modifies this`mimicBase
      ensures Tidy(mimicBase)
      ensures forall k :: Mentions(mimicBase, k) <==> Mentions(old(mimicBase), k) || (k in file.nodes && k.rule == rule)
    {
      assert forall h :: h in HyposOnFile(file, rule) ==> HypoOnFile(file, rule, h);
      var hypos := ListSubgroups(HyposOnFile(file, rule), 'H');
      for i := 0 to |hypos|
        invariant Tidy(mimicBase)
        invariant forall k :: Mentions(mimicBase, k) <==>
          Mentions(old(mimicBase), k) || (k in file.nodes && k.rule == rule && k.hypo in hypos[..i])
      {
        assert hypos[i] in HyposOnFile(file, rule);
        assert HypoOnFile(file, rule, hypos[i]);
        RebuildHypo(rule, hypos[i]);
        forall k
          ensures Mentions(mimicBase, k) <==>
            Mentions(old(mimicBase), k) || (k in file.nodes && k.rule == rule && k.hypo in hypos[..i + 1])
        {
          assert k.hypo in hypos[..i + 1] <==> k.hypo in hypos[..i] || k.hypo == hypos[i];
        }
      }
      assert hypos[..|hypos|] == hypos;
      forall k | k in file.nodes && k.rule == rule
        ensures k.hypo in hypos
      {
        assert k == NodeKey(rule, k.hypo, k.evid) && HypoOnFile(file, rule, k.hypo);
        assert k.hypo in HyposOnFile(file, rule) by {
          assert (rule, k.hypo) in file.hypos;
        }
      }
    }

    method RebuildHypo(rule: nat, hypo: nat)
      requires NamesValid(file) && FitsListings(file) && HypoOnFile(file, rule, hypo)
      requires Tidy(mimicBase) && forall k :: Mentions(mimicBase, k) ==> !(k.rule == rule && k.hypo == hypo)
      modifies this`mimicBase
      ensures Tidy(mimicBase)
      ensures forall k :: Mentions(mimicBase, k) <==>
        Mentions(old(mimicBase), k) || (k in file.nodes && k.rule == rule && k.hypo == hypo)
    {
      var evids := ListSubgroups(EvidsOf(file.nodes, rule, hypo), 'E');
      for i := 0 to |evids|
        invariant Tidy(mimicBase)
        invariant forall k :: Mentions(mimicBase, k) <==>
          Mentions(old(mimicBase), k) || (k.rule == rule && k.hypo == hypo && k.evid in evids[..i])
      {
        var key := NodeKey(rule, hypo, evids[i]);
        PushBackMentions(mimicBase, key);
        mimicBase := PushBack(mimicBase, key);
        assert evids[..i + 1] == evids[..i] + [evids[i]];
      }
      assert evids[..|evids|] == evids;
      forall k: NodeKey | k.rule == rule && k.hypo == hypo
        ensures k.evid in evids <==> k in file.nodes
      {
        assert k.evid in EvidsOf(file.nodes, rule, hypo) <==> k in file.nodes;
      }
    }

    /** The ids of the subgroups of one group, in the file library's own order. */
    method ListSubgroups(held: set<nat>, axis: char) returns (ids: seq<nat>)
      requires IsAxis(axis) && |held| <= MAX_SUBGROUPS && forall x :: x in held ==> IsId(x)
      ensures Range(ids) == held && Distinct(ids)
    {
      var order := AnyOrder(held);
      assert forall x :: x in order ==> x in held;
      var listing := new SubgroupListing(NamesOf(axis, order), axis, order);
      return listing.idsExtracted;
    }

    /** Moves the cursor, creating what the file still lacks of the path to the node.
        The call fails, as the file library does, on an id that has no name, and on a group that
        is to be created but is there already. */
    method PanCursorToNodeAt(ruleId: nat, hypoId: nat, evidId: nat) returns (threw: bool)
      requires Sound()
      modifies this`file, this`mimicBase, this`ruleX, this`hypoY, this`evidZ, this`numNodesActive,
        this`cursorAtActiveNode
      ensures Sound() && (old(Aligned()) || (ruleId > 0 && hypoId > 0 && evidId > 0) ==> Aligned())
      ensures threw <==> ruleId > 0 && hypoId > 0 && evidId > 0 && PanFails(old(file), NodeKey(ruleId, hypoId, evidId))
      ensures old(Valid()) && !threw ==> Valid()
      ensures !(ruleId > 0 && hypoId > 0 && evidId > 0) ==> unchanged(this)
      ensures !threw && ruleId > 0 && hypoId > 0 && evidId > 0 ==>
                && cursorAtActiveNode && Cursor() == NodeKey(ruleId, hypoId, evidId)
                && file.nodes == Touched(old(file.nodes), {NodeKey(ruleId, hypoId, evidId)})
      // A failing call leaves every table alone but may leave an empty group behind, which the
      // index does not know: no later call gets past it.
      ensures threw ==> file == LeftBy(old(file), NodeKey(ruleId, hypoId, evidId)) && mimicBase == old(mimicBase)
      ensures threw && old(Valid()) ==> (Valid() <==> !LeavesEmptyGroup(old(file), NodeKey(ruleId, hypoId, evidId)))
      ensures !threw && HypoInhabited(old(file), ruleId, hypoId) ==>
                file.rules == old(file.rules) && file.hypos == old(file.hypos)
      ensures Blocked(old(file)) <= Blocked(file) && (!threw ==> Blocked(file) == Blocked(old(file)))
    {
      threw := false;
      if ruleId > 0 && hypoId > 0 && evidId > 0 {
        var progress := PanAlongMimic(ruleId, hypoId, evidId);
        InhabitedIsOnFile(file, ruleId, hypoId);
        if !cursorAtActiveNode {
          threw := ExtendTo(progress, NodeKey(ruleId, hypoId, evidId));
          if threw {
            AfterFailure(old(file), file, mimicBase);
            if old(Valid()) {
              LeftUnlessEmpty(old(file), mimicBase, NodeKey(ruleId, hypoId, evidId));
            }
          } else {
            AfterCreation(old(file), old(mimicBase), NodeKey(ruleId, hypoId, evidId));
          }
        }
        TouchedOne(old(file.nodes), NodeKey(ruleId, hypoId, evidId));
      }
    }

    /** Moves each coordinate only as far as the index knows the way. */
    method PanAlongMimic(ruleId: nat, hypoId: nat, evidId: nat) returns (progress: Progress)
      requires Sound()
      modifies this`ruleX, this`hypoY, this`evidZ, this`cursorAtActiveNode
      ensures Aligned()
      ensures cursorAtActiveNode <==> NodeKey(ruleId, hypoId, evidId) in file.nodes
      ensures cursorAtActiveNode ==> Cursor() == NodeKey(ruleId, hypoId, evidId)
      ensures progress == if !RuleInhabited(file, ruleId) then KnowsNothing
                          else if !HypoInhabited(file, ruleId, hypoId) then KnowsRule
                          else if !cursorAtActiveNode then KnowsHypo else KnowsEvid
    {
      progress := KnowsNothing;
      cursorAtActiveNode := false;
      IndexedOnRule(file, mimicBase, ruleId);
      IndexedOnHypo(file, mimicBase, ruleId, hypoId);
      assert NodeKey(ruleId, hypoId, evidId) in file.nodes <==> Mentions(mimicBase, NodeKey(ruleId, hypoId, evidId));
      if ruleId in mimicBase {
        ruleX := ruleId;
        progress := KnowsRule;
        if hypoId in mimicBase[ruleX] {
          hypoY := hypoId;
          progress := KnowsHypo;
          if evidId in mimicBase[ruleX][hypoY] {
            evidZ := evidId;
            progress := KnowsEvid;
            cursorAtActiveNode := true;
          }
        }
      }
    }

    /** Adds the node to the file and to the index, and puts the cursor on it. */
    method ExtendTo(progress: Progress, key: NodeKey) returns (threw: bool)
      requires CanExtend(file, progress, key)
      modifies this`file, this`mimicBase, this`ruleX, this`hypoY, this`evidZ, this`numNodesActive,
        this`cursorAtActiveNode
      ensures threw <==> !(HasNames(key) && NamesNothingThere(old(file), progress, key))
      ensures !threw ==>
                && file == WithNode(old(file), key)
                && mimicBase == PushBack(old(mimicBase), key)
                && numNodesActive == old(numNodesActive) + 1
                && cursorAtActiveNode && Cursor() == key
      ensures threw ==> mimicBase == old(mimicBase) && cursorAtActiveNode == old(cursorAtActiveNode)
      ensures threw ==> OnlyEmptyGroupsMore(old(file), file) && file == LeftBy(old(file), key)
    {
      var created := CreateMissing(progress, key);
      if !created {
        return true;
      }
      mimicBase := PushBack(mimicBase, key);
      numNodesActive := numNodesActive + 1;
      ruleX, hypoY, evidZ := key.rule, key.hypo, key.evid;
      cursorAtActiveNode := true;
      return false;
    }

    /** The creation calls for what the index does not know, up to the first that fails. */
    method CreateMissing(progress: Progress, key: NodeKey) returns (created: bool)
      requires CanExtend(file, progress, key)
      modifies this`file
      ensures created <==> HasNames(key) && NamesNothingThere(old(file), progress, key)
      ensures created ==> file == WithNode(old(file), key)
      ensures !created ==> OnlyEmptyGroupsMore(old(file), file) && file == LeftBy(old(file), key)
    {
      assert HypoOnFile(file, key.rule, key.hypo) ==> RuleOnFile(file, key.rule);
      assert RuleOnFile(file, key.rule) ==> IsId(key.rule);
      if progress == KnowsNothing {
        if !RuleCanBeCreated(file, key.rule) {
          return false;
        }
        file := file.(rules := file.rules + {key.rule});
      }
      if progress == KnowsNothing || progress == KnowsRule {
        if !HypoCanBeCreated(file, key.rule, key.hypo) {
          GroupsMore(old(file), file);
          return false;
        }
        file := file.(hypos := file.hypos + {(key.rule, key.hypo)});
      }
      if !NodeCanBeCreated(file, key) {
        GroupsMore(old(file), file);
        return false;
      }
      file := file.(nodes := file.nodes[key := EMPTY_NODE]);
      return true;
    }

    method ReadCursorToImage() returns (reply: bool)
      requires Aligned()
      modifies this`nodeImage
      ensures reply == cursorAtActiveNode
      ensures nodeImage == if cursorAtActiveNode then file.nodes[Cursor()] else EMPTY_NODE
    {
      reply := false;
      nodeImage := EMPTY_NODE;
      if cursorAtActiveNode {
        nodeImage := file.nodes[Cursor()];
        reply := true;
      }
    }

    method WriteImageToCursor() returns (reply: bool)
      requires Aligned() && NonNegativeNode(nodeImage)
      modifies this`file
      ensures Aligned() && (Valid() <==> old(Valid())) && Blocked(file) == Blocked(old(file))
      ensures reply == cursorAtActiveNode
      ensures file == if cursorAtActiveNode then old(file).(nodes := old(file.nodes)[Cursor() := nodeImage])
                      else old(file)
    {
      reply := false;
      if cursorAtActiveNode {
        ghost var nodes := file.nodes[Cursor() := nodeImage];
        assert nodes.Keys == file.nodes.Keys;
        AgreeWhateverTheCounts(file, mimicBase, nodes);
        file := file.(nodes := file.nodes[Cursor() := nodeImage]);
        reply := true;
      }
    }

    function PriorCountsHypoTrueWhenEvid(row: nat): int
      requires row < NUM_ROWS
      reads this
    {
      if cursorAtActiveNode then nodeImage.trues[row] else 0
    }

    function PriorCountsHypoFalseWhenEvid(row: nat): int
      requires row < NUM_ROWS
      reads this
    {
      if cursorAtActiveNode then nodeImage.falses[row] else 0
    }

    predicate HasHypoEverBeenFalseWhenEvid(row: nat)
      requires row < NUM_ROWS
      reads this
    {
      PriorCountsHypoFalseWhenEvid(row) != 0
    }

    method IncrementHypoTrueForEvid(row: nat)
      requires row < NUM_ROWS
      modifies this`nodeImage
      ensures nodeImage == if cursorAtActiveNode then Bumped(old(nodeImage), row, true) else old(nodeImage)
    {
      if cursorAtActiveNode {
        nodeImage := nodeImage.(trues := nodeImage.trues[row := nodeImage.trues[row] + 1]);
      }
    }

    method IncrementHypoFalseForEvid(row: nat)
      requires row < NUM_ROWS
      modifies this`nodeImage
      ensures nodeImage == if cursorAtActiveNode then Bumped(old(nodeImage), row, false) else old(nodeImage)
    {
      if cursorAtActiveNode {
        nodeImage := nodeImage.(falses := nodeImage.falses[row := nodeImage.falses[row] + 1]);
      }
    }

    /** Writes the tables by which an expert's association is designed into a new
        knowledge base; one left by an earlier session is not touched.  The first pan that
        fails ends the call, with the tables before it written. */
    method InitializeNodeAt(ruleId: nat, nomHypoId: nat, evidId: nat, senseDirect: bool, logicInvertible: bool,
                            idAllHyposAssocToRule: seq<nat>) returns (threw: bool)
      requires Sound()
      requires ruleId > 0 && evidId > 0 && (forall h :: h in idAllHyposAssocToRule ==> h > 0)
      requires nomHypoId in idAllHyposAssocToRule
      modifies this
      ensures Sound() && (old(Aligned()) ==> Aligned())
      ensures kbaseIsPreexistantHdf5File == old(kbaseIsPreexistantHdf5File)
      ensures Lookups() == if threw then old(Lookups())
                           else KnownAlso(old(Lookups()),
                                          [Association(nomHypoId, evidId, senseDirect, logicInvertible)])
      ensures !threw ==> (old(Valid()) ==> Valid()) && Blocked(file) == Blocked(old(file))
      ensures kbaseIsPreexistantHdf5File ==> !threw && file == old(file)
      ensures !kbaseIsPreexistantHdf5File ==>
                var a := Association(nomHypoId, evidId, senseDirect, logicInvertible);
                && (threw <==> !GoesThrough(old(file), ruleId, idAllHyposAssocToRule, a))
                && file.nodes == InitializedUpTo(old(file.nodes), ruleId, idAllHyposAssocToRule, a,
                                                 Reach(old(file), ruleId, idAllHyposAssocToRule, a, 0))
    {
      threw := false;
      if !kbaseIsPreexistantHdf5File {
        threw := InitializeTables(ruleId, idAllHyposAssocToRule,
                                  Association(nomHypoId, evidId, senseDirect, logicInvertible));
        if threw {
          return;
        }
      }
      hyposById := hyposById + {nomHypoId};
      evidsById := evidsById + {evidId};
    }

    method InitializeTables(ruleId: nat, hypos: seq<nat>, a: Association) returns (threw: bool)
      requires Sound() && ruleId > 0 && a.evid > 0 && (forall h :: h in hypos ==> h > 0) && a.nominal in hypos
      modifies this`file, this`mimicBase, this`ruleX, this`hypoY, this`evidZ, this`numNodesActive,
        this`cursorAtActiveNode, this`nodeImage
      ensures Aligned()
      ensures !threw ==> (old(Valid()) ==> Valid()) && Blocked(file) == Blocked(old(file))
      ensures threw <==> !GoesThrough(old(file), ruleId, hypos, a)
      ensures file.nodes == InitializedUpTo(old(file.nodes), ruleId, hypos, a, Reach(old(file), ruleId, hypos, a, 0))
    {
      var oneOrMoreAltHypos := |hypos| > 1;
      threw := InitializeNominal(ruleId, hypos, a);
      if threw {
        return;
      }
      if oneOrMoreAltHypos {
        threw := InitializeAlternatives(ruleId, hypos, old(file), a);
      } else {
        assert hypos == [a.nominal];
        NominalAgain(old(file), ruleId, hypos, a, 1);
      }
    }

    method InitializeNominal(ruleId: nat, hypos: seq<nat>, a: Association) returns (threw: bool)
      requires Sound() && ruleId > 0 && a.evid > 0 && a.nominal > 0 && a.nominal in hypos
      modifies this`file, this`mimicBase, this`ruleX, this`hypoY, this`evidZ, this`numNodesActive,
        this`cursorAtActiveNode, this`nodeImage
      ensures Aligned()
      ensures !threw ==> (old(Valid()) ==> Valid()) && Blocked(file) == Blocked(old(file))
      ensures Reach(old(file), ruleId, hypos, a, 0) == if threw then 0 else Reach(old(file), ruleId, hypos, a, 1)
      ensures file.nodes == InitializedUpTo(old(file.nodes), ruleId, hypos, a, if threw then 0 else 1)
    {
      assert InitializedUpTo(file.nodes, ruleId, hypos, a, 0) == file.nodes;
      InitializedNext(file, ruleId, hypos, a, 0);
      MarkUpNominal(|hypos|, a);
      threw := WriteImageAt(ruleId, a.nominal, a.evid);
    }

    method MarkUpNominal(numHypos: nat, a: Association)
      requires numHypos > 0
      modifies this`nodeImage
      ensures nodeImage == DesignNode(numHypos, a, a.nominal) && NonNegativeNode(nodeImage)
    {
      var falses, trues := EMPTY_NODE.falses, EMPTY_NODE.trues;
      if a.direct {                       // E -> H_nominal
        trues := trues[1 := 1];
        if a.invertible {
          falses := falses[0 := numHypos - 1];
        }
      } else {                            // E -> !H_nominal
        trues := trues[0 := 1];
        if a.invertible {
          falses := falses[1 := numHypos - 1];
        }
      }
      nodeImage := Knode(falses, trues);
    }

    method MarkUpAlternative(numHypos: nat, a: Association, ghost altHypoId: nat)
      requires numHypos > 1 && altHypoId != a.nominal
      modifies this`nodeImage
      ensures nodeImage == DesignNode(numHypos, a, altHypoId) && NonNegativeNode(nodeImage)
    {
      if a.direct {
        nodeImage := Knode([numHypos - 2, 1, 0], [1, 0, 0]);
      } else {
        nodeImage := Knode([1, numHypos - 2, 0], [0, 1, 0]);
      }
    }

    /** The tables of the hypotheses other than the one the association names. */
    method InitializeAlternatives(ruleId: nat, hypos: seq<nat>, ghost before: KbFile, a: Association)
      returns (threw: bool)
      requires Aligned() && Blocked(file) == Blocked(before)
      requires ruleId > 0 && a.evid > 0 && (forall h :: h in hypos ==> h > 0) && |hypos| > 1
      requires Reach(before, ruleId, hypos, a, 0) == Reach(before, ruleId, hypos, a, 1)
      requires file.nodes == InitializedUpTo(before.nodes, ruleId, hypos, a, 1)
      modifies this`file, this`mimicBase, this`ruleX, this`hypoY, this`evidZ, this`numNodesActive,
        this`cursorAtActiveNode, this`nodeImage
      ensures Aligned()
      ensures !threw ==> (old(Valid()) ==> Valid()) && Blocked(file) == Blocked(before)
      ensures threw <==> !GoesThrough(before, ruleId, hypos, a)
      ensures file.nodes == InitializedUpTo(before.nodes, ruleId, hypos, a, Reach(before, ruleId, hypos, a, 0))
    {
      threw := false;
      for i := 0 to |hypos|
        invariant !threw && Aligned() && Blocked(file) == Blocked(before) && (old(Valid()) ==> Valid())
        invariant Reach(before, ruleId, hypos, a, 0) == Reach(before, ruleId, hypos, a, i + 1)
        invariant file.nodes == InitializedUpTo(before.nodes, ruleId, hypos, a, i + 1)
      {
        var altHypoId := hypos[i];
        assert altHypoId in hypos;
        if altHypoId == a.nominal {
          NominalAgain(before, ruleId, hypos, a, i + 1);
          continue;
        }
        InitializedNext(before, ruleId, hypos, a, i + 1);
        threw := InitializeAlternative(ruleId, altHypoId, |hypos|, a);
        if threw {
          return;
        }
      }
    }

    method InitializeAlternative(ruleId: nat, altHypoId: nat, numHypos: nat, a: Association) returns (threw: bool)
      requires Aligned() && numHypos > 1 && altHypoId != a.nominal
      requires ruleId > 0 && altHypoId > 0 && a.evid > 0
      modifies this`file, this`mimicBase, this`ruleX, this`hypoY, this`evidZ, this`numNodesActive,
        this`cursorAtActiveNode, this`nodeImage
      ensures Aligned() && (threw <==> PanFails(old(file), NodeKey(ruleId, altHypoId, a.evid)))
      ensures !threw ==> (old(Valid()) ==> Valid()) && Blocked(file) == Blocked(old(file))
      ensures file.nodes == if threw then old(file.nodes)
                else old(file.nodes)[NodeKey(ruleId, altHypoId, a.evid) := DesignNode(numHypos, a, altHypoId)]
    {
      MarkUpAlternative(numHypos, a, altHypoId);
      threw := WriteImageAt(ruleId, altHypoId, a.evid);
    }

    /** Work complete on the image: pan to the node and write it there. */
    method WriteImageAt(ruleId: nat, hypoId: nat, evidId: nat) returns (threw: bool)
      requires Sound() && NonNegativeNode(nodeImage)
      requires ruleId > 0 && hypoId > 0 && evidId > 0
      modifies this`file, this`mimicBase, this`ruleX, this`hypoY, this`evidZ, this`numNodesActive,
        this`cursorAtActiveNode
      ensures Aligned() && (threw <==> PanFails(old(file), NodeKey(ruleId, hypoId, evidId)))
      ensures !threw ==> (old(Valid()) ==> Valid()) && Blocked(file) == Blocked(old(file))
      ensures file.nodes == if threw then old(file.nodes)
                            else old(file.nodes)[NodeKey(ruleId, hypoId, evidId) := nodeImage]
    {
      threw := PanCursorToNodeAt(ruleId, hypoId, evidId);
      if threw {
        return;
      }
      if cursorAtActiveNode {
        OverwrittenWhereTouched(old(file.nodes), NodeKey(ruleId, hypoId, evidId), nodeImage);
        var _ := WriteImageToCursor();
      }
    }

    /** The hypotheses and evidence items with a table on file for a rule, and how often each
        hypothesis has been true whatever the evidence.  Each is looked up by its id, which fails
        if no association has named it. */
    method InitializeCaseTallies(caseRule: nat)
      returns (caseHypos: seq<HypoTally>, caseEvids: seq<nat>, sumTruesOfAllCaseHypos: int, threw: bool)
      requires Sound()
      modifies this`ruleX, this`hypoY, this`evidZ, this`cursorAtActiveNode, this`nodeImage
      ensures Sound() && (!threw && old(Aligned()) ==> Aligned())
      ensures threw <==> !RuleKnown(Lookups(), file.nodes, caseRule)
      ensures !threw ==>
                && Distinct(HypoIds(caseHypos)) && Range(HypoIds(caseHypos)) == HyposOfRule(file.nodes, caseRule)
                && Distinct(caseEvids) && Range(caseEvids) == EvidsOfRule(file.nodes, caseRule)
                && PriorsCounted(file.nodes, mimicBase, caseRule, caseHypos)
                && sumTruesOfAllCaseHypos == SumPriors(caseHypos)
    {
      caseHypos, caseEvids, sumTruesOfAllCaseHypos, threw := [], [], 0, false;
      var evidsMet: set<nat> := {};
      if caseRule in mimicBase {
        ruleX := caseRule;
        var walk := AnyOrder(mimicBase[caseRule].Keys);
        WalkMeetsAll(file, mimicBase, caseRule, walk);
        caseHypos, evidsMet, sumTruesOfAllCaseHypos, threw := WalkHypos(walk);
        if threw {
          return;
        }
        ruleX := 0;
      } else {
        NothingOfRule(file, mimicBase, caseRule);
      }
      caseEvids := AnyOrder(evidsMet);
    }

    method WalkHypos(walk: seq<nat>)
      returns (caseHypos: seq<HypoTally>, evidsMet: set<nat>, sumTrues: int, threw: bool)
      requires Sound() && Walkable(mimicBase, ruleX, walk)
      modifies this`hypoY, this`evidZ, this`cursorAtActiveNode, this`nodeImage
      ensures threw <==> !(Range(walk) <= hyposById && EvidsMet(mimicBase, ruleX, walk) <= evidsById)
      ensures !threw ==> (walk != [] ==> !cursorAtActiveNode)
      ensures !threw ==> AreTallies(file.nodes, mimicBase, ruleX, walk, caseHypos, evidsMet, sumTrues)
    {
      caseHypos, evidsMet, sumTrues, threw := [], {}, 0, false;
      for i := 0 to |walk|
        invariant !threw && (i > 0 ==> !cursorAtActiveNode)
        invariant Range(walk[..i]) <= hyposById && evidsMet <= evidsById
        invariant AreTallies(file.nodes, mimicBase, ruleX, walk[..i], caseHypos, evidsMet, sumTrues)
      {
        EvidsOfOneAreMet(mimicBase, ruleX, walk, i);
        assert walk[..i + 1] == walk[..i] + [walk[i]] && walk[i] in Range(walk);
        var t: HypoTally;
        t, threw := TallyHypo(walk[i]);
        if threw {
          return;
        }
        TalliesOneMore(file.nodes, mimicBase, ruleX, walk[..i], caseHypos, evidsMet, sumTrues, t);
        evidsMet := evidsMet + Range(mimicBase[ruleX][walk[i]]);
        caseHypos := caseHypos + [t];
        sumTrues := sumTrues + t.priorCount;
      }
      assert walk[..|walk|] == walk;
    }

    /** The record of one hypothesis of the rule under the cursor. */
    method TallyHypo(hypo: nat) returns (t: HypoTally, threw: bool)
      requires Sound() && HasSlot(mimicBase, ruleX, hypo)
      modifies this`hypoY, this`evidZ, this`cursorAtActiveNode, this`nodeImage
      ensures threw <==> !(hypo in hyposById && Range(mimicBase[ruleX][hypo]) <= evidsById)
      ensures !threw ==>
                !cursorAtActiveNode
                && t == NewHypo(hypo, PriorCount(file.nodes, ruleX, hypo, mimicBase[ruleX][hypo]))
    {
      hypoY := hypo;
      t := NewHypo(hypo, 0);
      if hypoY !in hyposById {
        return t, true;
      }
      var counts: int;
      counts, threw := CountHypoTrue();
      if threw {
        return;
      }
      t := NewHypo(hypoY, counts);
      hypoY := 0;
    }

    /** All counts of the hypothesis under the cursor being true, over its evidence items. */
    method CountHypoTrue() returns (countsThisHypoTrue: int, threw: bool)
      requires Sound() && HasSlot(mimicBase, ruleX, hypoY)
      modifies this`evidZ, this`cursorAtActiveNode, this`nodeImage
      ensures threw <==> !(Range(mimicBase[ruleX][hypoY]) <= evidsById)
      ensures !threw ==>
                && !cursorAtActiveNode
                && countsThisHypoTrue == PriorCount(file.nodes, ruleX, hypoY, mimicBase[ruleX][hypoY])
    {
      var evids := mimicBase[ruleX][hypoY];
      countsThisHypoTrue, threw := 0, false;
      for i := 0 to |evids|
        invariant !threw && (i > 0 ==> !cursorAtActiveNode)
        invariant Range(evids[..i]) <= evidsById
        invariant countsThisHypoTrue == PriorCount(file.nodes, ruleX, hypoY, evids[..i])
      {
        evidZ := evids[i];
        cursorAtActiveNode := true;
        if evidZ !in evidsById {
          assert evidZ in Range(evids);
          threw := true;
          return;
        }
        assert Mentions(mimicBase, Cursor());
        var _ := ReadCursorToImage();
        countsThisHypoTrue := countsThisHypoTrue + PriorCountsHypoTrueWhenEvid(0);
        countsThisHypoTrue := countsThisHypoTrue + PriorCountsHypoTrueWhenEvid(1);
        countsThisHypoTrue := countsThisHypoTrue + PriorCountsHypoTrueWhenEvid(2);
        assert evids[..i + 1] == evids[..i] + [evids[i]] && evids[..i + 1][..i] == evids[..i];
        evidZ := 0;
        cursorAtActiveNode := false;
      }
      assert evids[..|evids|] == evids;
    }
  }
}
