/** The expert's design: hypotheses with the evidence items associated to them, and the
    rules they explain.  Building a rule into the knowledge base drives the
    initialization of every node the design calls for. */
module KnowParts {
  import opened Nodes
  import opened GroupNames
  import opened OccurrenceTable
  import opened KnowBase

  // ----- What a build leaves -----

  /** The knowledge base as a build finds it or leaves it. */
  datatype Kbase = Kbase(isPreexistant: bool, file: KbFile, known: Known)

  function KbaseNow(kbase: KnowledgeBase): Kbase
    reads kbase
  {
    Kbase(kbase.kbaseIsPreexistantHdf5File, kbase.file, kbase.Lookups())
  }

  /** On a new knowledge base, the tables up to the first pan that fails, and the hypotheses and
      items of the associations written in full to be looked up; on one left by an earlier
      session, those of all associations to be looked up, and nothing else. */
  ghost predicate Leaves(before: Kbase, rule: nat, hypos: seq<nat>, assocs: seq<Association>, threw: bool,
                         after: Kbase) {
    && after.isPreexistant == before.isPreexistant
    && (!threw ==> Blocked(after.file) == Blocked(before.file))
    && if before.isPreexistant then
         !threw && after.file == before.file && after.known == KnownAlso(before.known, assocs)
       else
         && (threw <==> !AllGoThrough(before.file, rule, hypos, assocs))
         && after.file.nodes == BuiltInto(before.file, rule, hypos, assocs)
         && after.known == KnownAlso(before.known, InFull(before.file, rule, hypos, assocs))
  }

  lemma PrefixOneMore(assocs: seq<Association>, i: nat)
    requires i < |assocs|
    ensures assocs[..i + 1] == assocs[..i] + [assocs[i]] && assocs[..i] + [assocs[i]] <= assocs
  {
  }

  lemma PrefixInFull(assocs: seq<Association>)
    ensures assocs[..0] == [] && assocs[..|assocs|] == assocs
  {
  }

  lemma OneInFull(f: KbFile, rule: nat, hypos: seq<nat>, a: Association)
    ensures AllGoThrough(f, rule, hypos, [a]) <==> GoesThrough(f, rule, hypos, a)
    ensures InFull(f, rule, hypos, [a]) == if GoesThrough(f, rule, hypos, a) then [a] else []
    ensures BuiltInto(f, rule, hypos, [a])
         == InitializedUpTo(f.nodes, rule, hypos, a, Reach(f, rule, hypos, a, 0))
  {
    var none: seq<Association> := [];
    assert none + [a] == [a] && [a][..0] == none && [a][0] == a;
    assert AllGoThrough(f, rule, hypos, none) && BuiltInto(f, rule, hypos, none) == f.nodes;
    BuiltOneMore(f, rule, hypos, none, a);
  }

  lemma OneLeaves(before: Kbase, rule: nat, hypos: seq<nat>, a: Association, threw: bool, after: Kbase)
    requires after.isPreexistant == before.isPreexistant
    requires !threw ==> Blocked(after.file) == Blocked(before.file)
    requires after.known == if threw then before.known else KnownAlso(before.known, [a])
    requires before.isPreexistant ==> !threw && after.file == before.file
    requires !before.isPreexistant ==>
               && (threw <==> !GoesThrough(before.file, rule, hypos, a))
               && after.file.nodes
               == InitializedUpTo(before.file.nodes, rule, hypos, a, Reach(before.file, rule, hypos, a, 0))
    ensures Leaves(before, rule, hypos, [a], threw, after)
  {
    OneInFull(before.file, rule, hypos, a);
  }

  lemma BuildGoesOnLeaving(before: Kbase, now: Kbase, rule: nat, hypos: seq<nat>, first: seq<Association>,
                           second: seq<Association>, assocs: seq<Association>, threw: bool, after: Kbase)
    requires Leaves(before, rule, hypos, first, false, now) && Leaves(now, rule, hypos, second, threw, after)
    requires first + second <= assocs
    ensures Leaves(before, rule, hypos, if threw then assocs else first + second, threw, after)
  {
    KnownInTwo(before.known, first, second);
    if !before.isPreexistant {
      KnownInTwo(before.known, first, InFull(now.file, rule, hypos, second));
      BuildGoesOn(before.file, now.file, after.file.nodes, rule, hypos, first, second, assocs);
    }
  }

  class Hypo {
    const hypoId: nat
    var evidAssocData: seq<Association>

    constructor (id: nat)
      ensures hypoId == id && evidAssocData == []
    {
      hypoId := id;
      evidAssocData := [];
    }

    ghost predicate Valid()
      reads this
    {
      hypoId > 0 && forall a :: a in evidAssocData ==> a.nominal == hypoId && a.evid > 0
    }

    method AssociateEvid(evidId: nat, senseDirect: bool, invertible: bool)
      requires Valid() && evidId > 0
      modifies this
      ensures Valid()
      ensures evidAssocData == old(evidAssocData) + [Association(hypoId, evidId, senseDirect, invertible)]
    {
      evidAssocData := evidAssocData + [Association(hypoId, evidId, senseDirect, invertible)];
    }

    method BuildRuleAndHypoIntoKbase(ruleId: nat, idAssocHypos: seq<nat>, kbase: KnowledgeBase) returns (threw: bool)
      requires Valid() && kbase.Sound()
      requires ruleId > 0 && (forall h :: h in idAssocHypos ==> h > 0) && hypoId in idAssocHypos
      modifies kbase
      ensures kbase.Sound() && kbase.kbaseIsPreexistantHdf5File == old(kbase.kbaseIsPreexistantHdf5File)
      ensures !threw && old(kbase.Valid()) ==> kbase.Valid()
      ensures Leaves(old(KbaseNow(kbase)), ruleId, idAssocHypos, evidAssocData, threw, KbaseNow(kbase))
    {
      threw := false;
      ghost var before := KbaseNow(kbase);
      PrefixInFull(evidAssocData);
      for i := 0 to |evidAssocData|
        invariant !threw && kbase.Sound() && (old(kbase.Valid()) ==> kbase.Valid())
        invariant kbase.kbaseIsPreexistantHdf5File == old(kbase.kbaseIsPreexistantHdf5File)
        invariant Leaves(before, ruleId, idAssocHypos, evidAssocData[..i], false, KbaseNow(kbase))
      {
        var a := evidAssocData[i];
        PrefixOneMore(evidAssocData, i);
        assert a == Association(hypoId, a.evid, a.direct, a.invertible);
        ghost var now := KbaseNow(kbase);
        threw := Initialize(ruleId, idAssocHypos, a, kbase);
        BuildGoesOnLeaving(before, now, ruleId, idAssocHypos, evidAssocData[..i], [a], evidAssocData, threw,
                           KbaseNow(kbase));
        if threw {
          return;
        }
      }
    }

    method Initialize(ruleId: nat, idAssocHypos: seq<nat>, a: Association, kbase: KnowledgeBase) returns (threw: bool)
      requires kbase.Sound() && ruleId > 0 && (forall h :: h in idAssocHypos ==> h > 0) && hypoId in idAssocHypos
      requires a == Association(hypoId, a.evid, a.direct, a.invertible) && a.evid > 0
      modifies kbase
      ensures kbase.Sound() && kbase.kbaseIsPreexistantHdf5File == old(kbase.kbaseIsPreexistantHdf5File)
      ensures !threw && old(kbase.Valid()) ==> kbase.Valid()
      ensures Leaves(old(KbaseNow(kbase)), ruleId, idAssocHypos, [a], threw, KbaseNow(kbase))
    {
      threw := kbase.InitializeNodeAt(ruleId, hypoId, a.evid, a.direct, a.invertible, idAssocHypos);
      OneLeaves(old(KbaseNow(kbase)), ruleId, idAssocHypos, a, threw, KbaseNow(kbase));
    }
  }

  function InTurn(parts: seq<seq<Association>>): seq<Association> {
    if parts == [] then [] else InTurn(parts[..|parts| - 1]) + parts[|parts| - 1]
  }

  lemma {:induction false} InTurnOneMore(parts: seq<seq<Association>>, i: nat)
    requires i < |parts|
    ensures InTurn(parts[..i + 1]) == InTurn(parts[..i]) + parts[i]
    ensures InTurn(parts[..i]) + parts[i] <= InTurn(parts)
    decreases |parts|
  {
    assert parts[..i + 1][..i] == parts[..i];
    if i + 1 == |parts| {
      assert parts[..i + 1] == parts;
    } else {
      var front := parts[..|parts| - 1];
      InTurnOneMore(front, i);
      assert front[..i + 1] == parts[..i + 1] && front[..i] == parts[..i];
      assert InTurn(front) <= InTurn(parts);
    }
  }

  predicate Names(assocs: seq<Association>, evid: nat) {
    exists a :: a in assocs && a.evid == evid
  }

  lemma {:induction false} LastOfBoth(first: seq<Association>, second: seq<Association>, evid: nat)
    requires Names(first + second, evid)
    ensures Names(second, evid) ==> LastNaming(first + second, evid) == LastNaming(second, evid)
    ensures !Names(second, evid) ==> Names(first, evid) && LastNaming(first + second, evid) == LastNaming(first, evid)
  {
    if second == [] {
      assert first + second == first;
    } else {
      var front, last := second[..|second| - 1], second[|second| - 1];
      assert (first + second)[..|first + second| - 1] == first + front;
      assert last in second;
      if last.evid != evid {
        assert forall a :: a in first + second ==> a in first + front || a == last;
        assert Names(first + front, evid);
        LastOfBoth(first, front, evid);
        assert Names(second, evid) <==> Names(front, evid);
      }
    }
  }

  /** An item that several hypotheses are said to bear on is left as the last of them in turn has it. */
  lemma {:induction false} LastInTurnDecides(parts: seq<seq<Association>>, evid: nat, i: nat)
    requires i < |parts| && Names(parts[i], evid) && forall j :: i < j < |parts| ==> !Names(parts[j], evid)
    ensures Names(InTurn(parts), evid) && LastNaming(InTurn(parts), evid) == LastNaming(parts[i], evid)
  {
    var front, last := parts[..|parts| - 1], parts[|parts| - 1];
    if i < |front| {
      LastInTurnDecides(front, evid, i);
      var a :| a in InTurn(front) && a.evid == evid;
      assert a in InTurn(parts);
    } else {
      var a :| a in last && a.evid == evid;
      assert a in InTurn(parts);
    }
    LastOfBoth(InTurn(front), last, evid);
  }

  /** What the experts said about each hypothesis of a rule. */
  ghost function PartsOf(hypos: seq<Hypo>): (parts: seq<seq<Association>>)
    reads hypos
    ensures |parts| == |hypos| && forall i :: 0 <= i < |hypos| ==> parts[i] == hypos[i].evidAssocData
  {
    seq(|hypos|, i requires 0 <= i < |hypos| reads hypos => hypos[i].evidAssocData)
  }

  /** And about all of them, in the order it is built. */
  ghost function AllAssociations(hypos: seq<Hypo>): seq<Association>
    reads hypos
  {
    InTurn(PartsOf(hypos))
  }

  /** The diagnostic side of a rule: the hypotheses that can explain its failures. */
  class RuleDesign {
    const ruleUai: nat
    var assocHypos: seq<Hypo>
    var assocHypoUai: seq<nat>

    constructor (uai: nat)
      ensures ruleUai == uai && assocHypos == [] && assocHypoUai == []
    {
      ruleUai := uai;
      assocHypos, assocHypoUai := [], [];
    }

    ghost predicate Valid()
      reads this, assocHypos
    {
      && ruleUai > 0
      && |assocHypos| == |assocHypoUai|
      && forall i :: 0 <= i < |assocHypos| ==> assocHypos[i].Valid() && assocHypos[i].hypoId == assocHypoUai[i]
    }

    method AssociateHypo(hypo: Hypo)
      requires Valid() && hypo.Valid()
      modifies this
      ensures Valid()
      ensures assocHypos == old(assocHypos) + [hypo] && assocHypoUai == old(assocHypoUai) + [hypo.hypoId]
    {
      assocHypos := assocHypos + [hypo];
      assocHypoUai := assocHypoUai + [hypo.hypoId];
    }

    method BuildRuleIntoKbase(kbase: KnowledgeBase) returns (threw: bool)
      requires Valid() && kbase.Sound()
      modifies kbase
      ensures kbase.Sound() && kbase.kbaseIsPreexistantHdf5File == old(kbase.kbaseIsPreexistantHdf5File)
      ensures !threw && old(kbase.Valid()) ==> kbase.Valid()
      ensures Leaves(old(KbaseNow(kbase)), ruleUai, assocHypoUai, old(AllAssociations(assocHypos)), threw,
                     KbaseNow(kbase))
    {
      threw := BuildHypos(PartsOf(assocHypos), kbase);
    }

    method BuildHypos(ghost parts: seq<seq<Association>>, kbase: KnowledgeBase) returns (threw: bool)
      requires Valid() && kbase.Sound() && parts == PartsOf(assocHypos)
      modifies kbase
      ensures kbase.Sound() && kbase.kbaseIsPreexistantHdf5File == old(kbase.kbaseIsPreexistantHdf5File)
      ensures !threw && old(kbase.Valid()) ==> kbase.Valid()
      ensures Leaves(old(KbaseNow(kbase)), ruleUai, assocHypoUai, InTurn(parts), threw, KbaseNow(kbase))
    {
      threw := false;
      ghost var before := KbaseNow(kbase);
      for i := 0 to |assocHypos|
        invariant !threw && kbase.Sound() && (old(kbase.Valid()) ==> kbase.Valid())
        invariant kbase.kbaseIsPreexistantHdf5File == old(kbase.kbaseIsPreexistantHdf5File)
        invariant Leaves(before, ruleUai, assocHypoUai, InTurn(parts[..i]), false, KbaseNow(kbase))
      {
        ghost var now := KbaseNow(kbase);
        threw := BuildHypo(i, parts[i], kbase);
        InTurnOneMore(parts, i);
        BuildGoesOnLeaving(before, now, ruleUai, assocHypoUai, InTurn(parts[..i]), parts[i], InTurn(parts), threw,
                           KbaseNow(kbase));
        if threw {
          return;
        }
      }
      assert parts[..|parts|] == parts;
    }

    method BuildHypo(i: nat, ghost part: seq<Association>, kbase: KnowledgeBase) returns (threw: bool)
      requires Valid() && kbase.Sound() && i < |assocHypos| && part == assocHypos[i].evidAssocData
      modifies kbase
      ensures kbase.Sound() && kbase.kbaseIsPreexistantHdf5File == old(kbase.kbaseIsPreexistantHdf5File)
      ensures !threw && old(kbase.Valid()) ==> kbase.Valid()
      ensures Leaves(old(KbaseNow(kbase)), ruleUai, assocHypoUai, part, threw, KbaseNow(kbase))
    {
      var hypo := assocHypos[i];
      assert hypo.hypoId == assocHypoUai[i];
      assert forall j :: 0 <= j < |assocHypos| ==> assocHypos[j].hypoId > 0;
      threw := hypo.BuildRuleAndHypoIntoKbase(ruleUai, assocHypoUai, kbase);
    }
  }

  // ----- A rule half designed -----

  /** Nothing is in the way on a new file. */
  lemma NewFileIsFree(key: NodeKey)
    requires HasNames(key)
    ensures !PanFails(KbFile({}, {}, map[]), key)
  {
    var f := KbFile({}, {}, map[]);
    assert !RuleOnFile(f, key.rule) && !HypoOnFile(f, key.rule, key.hypo);
  }

  lemma HalfBuilt(after: NodeMap, hypos: seq<nat>, a: Association)
    requires hypos == [1, 2] && a == Association(1, 1, true, true)
    requires after == BuiltInto(KbFile({}, {}, map[]), 1, hypos, [a])
    ensures AllGoThrough(KbFile({}, {}, map[]), 1, hypos, [a])
    ensures NodeKey(1, 2, 1) in after
  {
    var f := KbFile({}, {}, map[]);
    assert hypos[0] == 1 && hypos[1] == 2;
    forall h | h in hypos
      ensures !PanFails(f, NodeKey(1, h, 1))
    {
      NewFileIsFree(NodeKey(1, h, 1));
    }
    AllGoThroughIff(f, 1, hypos, [a]);
    BuiltInFull(f, 1, hypos, [a]);
    assert [a][..0] == [];
    assert NodeKey(1, 2, 1) in KeysAt(1, Range(hypos), 1);
  }

  lemma HalfSaid(hypos: seq<Hypo>)
    requires |hypos| == 2 && hypos[1].evidAssocData == []
    ensures AllAssociations(hypos) == hypos[0].evidAssocData
  {
    var parts := PartsOf(hypos);
    assert parts[..1][..0] == [];
    assert InTurn(parts) == InTurn(parts[..1]) + parts[1];
    assert InTurn(parts[..1]) == InTurn([]) + parts[0];
  }

  const HALF := Association(1, 1, true, true)

  method DesignHalf() returns (rule: RuleDesign)
    ensures fresh(rule) && rule.Valid() && rule.ruleUai == 1 && rule.assocHypoUai == [1, 2]
    ensures AllAssociations(rule.assocHypos) == [HALF]
  {
    var first := DesignFirst();
    var second := new Hypo(2);
    rule := new RuleDesign(1);
    rule.AssociateHypo(first);
    rule.AssociateHypo(second);
    assert rule.assocHypos == [first, second];
    HalfSaid(rule.assocHypos);
  }

  method DesignFirst() returns (first: Hypo)
    ensures fresh(first) && first.Valid() && first.hypoId == 1 && first.evidAssocData == [HALF]
  {
    first := new Hypo(1);
    first.AssociateEvid(1, true, true);
  }

  method BuildHalf(rule: RuleDesign) returns (kbase: KnowledgeBase, threw: bool)
    requires rule.Valid() && rule.ruleUai == 1 && rule.assocHypoUai == [1, 2]
    requires AllAssociations(rule.assocHypos) == [HALF]
    ensures fresh(kbase) && kbase.Sound() && !threw
    ensures NodeKey(1, 2, 1) in kbase.file.nodes && kbase.hyposById == {1}
  {
    kbase := new KnowledgeBase(KbFile({}, {}, map[]));
    ghost var before := KbaseNow(kbase);
    threw := rule.BuildRuleIntoKbase(kbase);
    HalfLeaves(before, threw, KbaseNow(kbase));
  }

  lemma HalfLeaves(before: Kbase, threw: bool, after: Kbase)
    requires before == Kbase(false, KbFile({}, {}, map[]), Known({}, {}))
    requires Leaves(before, 1, [1, 2], [HALF], threw, after)
    ensures !threw && NodeKey(1, 2, 1) in after.file.nodes && after.known.hypos == {1}
  {
    HalfBuilt(after.file.nodes, [1, 2], HALF);
    assert HALF in [HALF];
  }

  /** A rule with two hypotheses is designed and built into a new knowledge base, but the only
      item there is is associated with the first: all goes through, and no case can begin. */
  method CaseOnHalf() returns (threw: bool, caseThrew: bool)
    ensures !threw && caseThrew
  {
    var rule := DesignHalf();
    var kbase;
    kbase, threw := BuildHalf(rule);
    assert 2 in HyposOfRule(kbase.file.nodes, 1);
    var _, _, _, t := kbase.InitializeCaseTallies(1);
    caseThrew := t;
  }
}
