/** The trap of a rule kit: over the newest cycles of the rules' logs it counts each rule's
    failures in auto mode, and picks the rule to make a case of and the rule whose
    snapshots are to go. */
module Trap {
  import opened Nodes
  import opened Rules

  const FAILS_IN_EMPTY_TRAP_MAX: nat := 3

  /** One rule as the trap sees it.  The flag is that the rule has no number of a set of
      snapshots: it has never been given one, for the number stays when the set is destroyed. */
  datatype RuleColumn = RuleColumn(uai: nat, log: seq<nat>, isAuto: bool, hasNoSnapshot: bool)

  datatype TrapResult = TrapResult(uaiTrapped: nat, uaiToWipe: nat)

  /** Failures in the newest cycles, if the rule is in auto mode now. */
  function AutoFails(c: RuleColumn, span: nat): nat
    requires span <= |c.log|
  {
    if !c.isAuto || span == 0 then 0
    else AutoFails(c, span - 1) + if c.log[span - 1] == BINDEX_AUTO_FAIL then 1 else 0
  }

  ghost predicate SpanFits(columns: seq<RuleColumn>, span: nat) {
    forall i :: 0 <= i < |columns| ==> span <= |columns[i].log|
  }

  function FailCounts(columns: seq<RuleColumn>, span: nat): (r: seq<nat>)
    requires forall i :: 0 <= i < |columns| ==> span <= |columns[i].log|
    ensures |r| == |columns| && forall i :: 0 <= i < |r| ==> r[i] == AutoFails(columns[i], span)
  {
    seq(|columns|, i requires 0 <= i < |columns| => AutoFails(columns[i], span))
  }

  function SumOfFails(s: seq<nat>): nat {
    if s == [] then 0 else SumOfFails(s[..|s| - 1]) + s[|s| - 1]
  }

  /** One more for a rule that was never given a set of snapshots. */
  function WithNoSnapshot(columns: seq<RuleColumn>, counts: seq<nat>): (r: seq<nat>)
    requires |columns| == |counts|
    ensures |r| == |columns|
    ensures forall i :: 0 <= i < |r| ==> r[i] == counts[i] + if columns[i].hasNoSnapshot then 1 else 0
  {
    seq(|columns|, i requires 0 <= i < |columns| => counts[i] + if columns[i].hasNoSnapshot then 1 else 0)
  }

  /** The first greatest element. */
  function MaxElement(s: seq<nat>): (m: nat)
    requires s != []
    ensures m < |s| && (forall i :: 0 <= i < |s| ==> s[i] <= s[m]) && forall i :: 0 <= i < m ==> s[i] < s[m]
  {
    if |s| == 1 then 0
    else var m := MaxElement(s[..|s| - 1]); if s[m] < s[|s| - 1] then |s| - 1 else m
  }

  /** The first least element. */
  function MinElement(s: seq<nat>): (m: nat)
    requires s != []
    ensures m < |s| && (forall i :: 0 <= i < |s| ==> s[m] <= s[i]) && forall i :: 0 <= i < m ==> s[m] < s[i]
  {
    if |s| == 1 then 0
    else var m := MinElement(s[..|s| - 1]); if s[|s| - 1] < s[m] then |s| - 1 else m
  }

  function Sprung(columns: seq<RuleColumn>, span: nat): TrapResult
    requires forall i :: 0 <= i < |columns| ==> span <= |columns[i].log|
  {
    var counts := FailCounts(columns, span);
    if SumOfFails(counts) <= FAILS_IN_EMPTY_TRAP_MAX then TrapResult(0, 0)
    else
      var trapped := columns[MaxElement(counts)].uai;
      var least := columns[MinElement(WithNoSnapshot(columns, counts))].uai;
      TrapResult(trapped, if least != trapped then least else 0)
  }

  // ----- What the trap catches -----

  lemma {:induction false} SumAtMost(s: seq<nat>, most: nat)
    requires forall i :: 0 <= i < |s| ==> s[i] <= most
    ensures SumOfFails(s) <= |s| * most && (most == 0 ==> SumOfFails(s) == 0)
  {
    if s != [] {
      SumAtMost(s[..|s| - 1], most);
      assert |s| * most == (|s| - 1) * most + most;
    }
  }

  predicate HasUai(c: RuleColumn, uai: nat) {
    c.uai == uai
  }

  /** Distinct rules, none of them numbered zero. */
  ghost predicate UaisSound(columns: seq<RuleColumn>) {
    && (forall i :: 0 <= i < |columns| ==> columns[i].uai != 0)
    && forall i, j :: 0 <= i < j < |columns| ==> columns[i].uai != columns[j].uai
  }

  /** The trap catches a rule exactly when the auto-mode failures in its span are more than
      three in all.  The rule caught is in auto mode, no other has failed more often, and
      its failures are at least its share of them. */
  lemma TrapCatchesMostFailing(columns: seq<RuleColumn>, span: nat)
    requires SpanFits(columns, span) && UaisSound(columns)
    ensures var r, counts := Sprung(columns, span), FailCounts(columns, span);
            && (r.uaiTrapped != 0 <==> SumOfFails(counts) > FAILS_IN_EMPTY_TRAP_MAX)
            && (r.uaiTrapped != 0 ==>
                  exists i :: 0 <= i < |columns| && HasUai(columns[i], r.uaiTrapped) && columns[i].isAuto
                              && counts[i] > 0 && (forall j :: 0 <= j < |columns| ==> counts[j] <= counts[i])
                              && |counts| * counts[i] >= SumOfFails(counts))
  {
    var counts := FailCounts(columns, span);
    if SumOfFails(counts) > FAILS_IN_EMPTY_TRAP_MAX {
      var i := MaxElement(counts);
      SumAtMost(counts, counts[i]);
      assert HasUai(columns[i], Sprung(columns, span).uaiTrapped);
    }
  }

  lemma IndexOfUai(columns: seq<RuleColumn>, i: nat, j: nat)
    requires UaisSound(columns) && i < |columns| && j < |columns|
    ensures columns[i].uai == columns[j].uai <==> i == j
  {
  }

  /** The rule to lose its snapshots is never the one caught.  It has no more failures than
      any other, never having had snapshots counting as one; there is none exactly when nothing is
      caught or the rule caught is itself the first such. */
  lemma TrapWipesLeastFailing(columns: seq<RuleColumn>, span: nat)
    requires columns != [] && SpanFits(columns, span) && UaisSound(columns)
    ensures var r, counts := Sprung(columns, span), FailCounts(columns, span);
            var least := MinElement(WithNoSnapshot(columns, counts));
            && (r.uaiToWipe == 0 <==> r.uaiTrapped == 0 || least == MaxElement(counts))
            && (r.uaiToWipe != 0 ==>
                  && r.uaiToWipe != r.uaiTrapped && columns[least].uai == r.uaiToWipe
                  && forall j :: 0 <= j < |columns| ==>
                       counts[least] + (if columns[least].hasNoSnapshot then 1 else 0)
                       <= counts[j] + (if columns[j].hasNoSnapshot then 1 else 0))
  {
    var counts := FailCounts(columns, span);
    var flagged := WithNoSnapshot(columns, counts);
    IndexOfUai(columns, MinElement(flagged), MaxElement(counts));
    assert forall j :: 0 <= j < |columns| ==> flagged[MinElement(flagged)] <= flagged[j];
  }

  /** Both rules named, if any, are rules of the kit. */
  lemma TrapNamesRules(columns: seq<RuleColumn>, span: nat, uai: nat)
    requires SpanFits(columns, span) && uai != 0
    requires uai == Sprung(columns, span).uaiTrapped || uai == Sprung(columns, span).uaiToWipe
    ensures exists i :: 0 <= i < |columns| && HasUai(columns[i], uai)
  {
    var counts := FailCounts(columns, span);
    if columns != [] {
      var most, least := MaxElement(counts), MinElement(WithNoSnapshot(columns, counts));
      assert HasUai(columns[most], columns[most].uai) && HasUai(columns[least], columns[least].uai);
    }
  }

  /** Was given a set of snapshots once, kept or not, and has no failure left in the span. */
  predicate IsStale(c: RuleColumn, span: nat)
    requires span <= |c.log|
  {
    !c.hasNoSnapshot && AutoFails(c, span) == 0
  }

  /** While some rule that was ever given snapshots has no failure in the span, the rule to
      lose its snapshots is such a rule - whether or not it still has any to lose. */
  lemma StaleSnapshotsGoFirst(columns: seq<RuleColumn>, span: nat, stale: nat)
    requires columns != [] && SpanFits(columns, span) && UaisSound(columns)
    requires stale < |columns| && IsStale(columns[stale], span)
    requires SumOfFails(FailCounts(columns, span)) > FAILS_IN_EMPTY_TRAP_MAX
    ensures var r := Sprung(columns, span);
            && r.uaiToWipe != 0
            && exists i :: 0 <= i < |columns| && HasUai(columns[i], r.uaiToWipe) && IsStale(columns[i], span)
  {
    var counts := FailCounts(columns, span);
    var flagged := WithNoSnapshot(columns, counts);
    var least, most := MinElement(flagged), MaxElement(counts);
    assert flagged[least] <= flagged[stale] == 0;
    TrapCatchesMostFailing(columns, span);
    SumAtMost(counts, counts[most]);
    IndexOfUai(columns, least, most);
    assert HasUai(columns[least], columns[least].uai);
  }

  // ----- In terms of the failures themselves -----

  /** The cycles, counted back, in which a rule now in auto mode is logged to have failed. */
  function FailsOf(c: RuleColumn, span: nat): set<nat>
    requires span <= |c.log|
  {
    set r | 0 <= r < span && c.isAuto && c.log[r] == 0
  }

  /** All failures the trap sees: which rule, and how many cycles back. */
  function AllFails(columns: seq<RuleColumn>, span: nat): set<(nat, nat)>
    requires forall i :: 0 <= i < |columns| ==> span <= |columns[i].log|
  {
    set i, r | 0 <= i < |columns| && r in FailsOf(columns[i], span) :: (i, r)
  }

  lemma FailsOneMore(c: RuleColumn, n: nat)
    requires n < |c.log| && c.isAuto
    ensures |FailsOf(c, n + 1)| == |FailsOf(c, n)| + if c.log[n] == 0 then 1 else 0
  {
    var before, after := FailsOf(c, n), FailsOf(c, n + 1);
    assert n !in before;
    if c.log[n] == 0 {
      assert after == before + {n};
    } else {
      assert after == before;
    }
  }

  lemma {:induction false} FailsAreCounted(c: RuleColumn, span: nat)
    requires span <= |c.log|
    ensures AutoFails(c, span) == |FailsOf(c, span)|
  {
    if !c.isAuto || span == 0 {
      assert FailsOf(c, span) == {};
    } else {
      FailsAreCounted(c, span - 1);
      FailsOneMore(c, span - 1);
    }
  }

  function Tagged(i: nat, s: set<nat>): set<(nat, nat)> {
    set r | r in s :: (i, r)
  }

  lemma {:induction false} AsManyTagged(i: nat, s: set<nat>)
    ensures |Tagged(i, s)| == |s|
  {
    if s == {} {
      assert Tagged(i, s) == {};
    } else {
      var x :| x in s;
      var fewer := Tagged(i, s - {x});
      AsManyTagged(i, s - {x});
      assert (i, x) !in fewer && Tagged(i, s) == fewer + {(i, x)};
    }
  }

  lemma AllFailsOneMore(columns: seq<RuleColumn>, span: nat)
    requires SpanFits(columns, span) && columns != []
    ensures var n := |columns| - 1;
            && SpanFits(columns[..n], span)
            && |AllFails(columns, span)| == |AllFails(columns[..n], span)| + |FailsOf(columns[n], span)|
  {
    var n := |columns| - 1;
    var front, last := AllFails(columns[..n], span), Tagged(n, FailsOf(columns[n], span));
    AsManyTagged(n, FailsOf(columns[n], span));
    assert front !! last;
    assert AllFails(columns, span) == front + last;
  }

  lemma {:induction false} AllFailsAreCounted(columns: seq<RuleColumn>, span: nat)
    requires SpanFits(columns, span)
    ensures SumOfFails(FailCounts(columns, span)) == |AllFails(columns, span)|
  {
    if columns == [] {
      assert AllFails(columns, span) == {};
    } else {
      var n := |columns| - 1;
      AllFailsOneMore(columns, span);
      AllFailsAreCounted(columns[..n], span);
      FailsAreCounted(columns[n], span);
      assert FailCounts(columns, span)[..n] == FailCounts(columns[..n], span);
    }
  }

  /** What is weighed of a rule when one is to lose its snapshots. */
  function Claim(c: RuleColumn, span: nat): nat
    requires span <= |c.log|
  {
    |FailsOf(c, span)| + if c.hasNoSnapshot then 1 else 0
  }

  /** The first of those that failed most often. */
  ghost predicate IsFirstOfMost(columns: seq<RuleColumn>, span: nat, i: nat) {
    && SpanFits(columns, span) && i < |columns|
    && forall j :: 0 <= j < |columns| ==>
         var most, other := |FailsOf(columns[i], span)|, |FailsOf(columns[j], span)|;
         if j < i then other < most else other <= most
  }

  /** The first of those with the least claim. */
  ghost predicate IsFirstOfLeast(columns: seq<RuleColumn>, span: nat, k: nat) {
    && SpanFits(columns, span) && k < |columns|
    && forall j :: 0 <= j < |columns| ==>
         var least, other := Claim(columns[k], span), Claim(columns[j], span);
         if j < k then other > least else other >= least
  }

  lemma MaxIsFirstOfMost(columns: seq<RuleColumn>, span: nat)
    requires SpanFits(columns, span) && columns != []
    ensures IsFirstOfMost(columns, span, MaxElement(FailCounts(columns, span)))
  {
    var counts := FailCounts(columns, span);
    forall j | 0 <= j < |columns|
      ensures counts[j] == |FailsOf(columns[j], span)|
    {
      FailsAreCounted(columns[j], span);
    }
  }

  lemma MinIsFirstOfLeast(columns: seq<RuleColumn>, span: nat)
    requires SpanFits(columns, span) && columns != []
    ensures IsFirstOfLeast(columns, span, MinElement(WithNoSnapshot(columns, FailCounts(columns, span))))
  {
    var flagged := WithNoSnapshot(columns, FailCounts(columns, span));
    forall j | 0 <= j < |columns|
      ensures flagged[j] == Claim(columns[j], span)
    {
      FailsAreCounted(columns[j], span);
    }
  }

  /** The trap springs when it sees four failures or more.  It then names the first of the rules
      that failed most often, and the first of those with the least claim to their snapshots - or
      none if that is the same. */
  lemma TrapNamesFirstOf(columns: seq<RuleColumn>, span: nat) returns (most: nat, least: nat)
    requires columns != [] && SpanFits(columns, span) && UaisSound(columns)
    ensures IsFirstOfMost(columns, span, most) && IsFirstOfLeast(columns, span, least)
    ensures Sprung(columns, span)
         == if |AllFails(columns, span)| < 4 then TrapResult(0, 0)
            else TrapResult(columns[most].uai, if least == most then 0 else columns[least].uai)
  {
    var counts := FailCounts(columns, span);
    most, least := MaxElement(counts), MinElement(WithNoSnapshot(columns, counts));
    AllFailsAreCounted(columns, span);
    MaxIsFirstOfMost(columns, span);
    MinIsFirstOfLeast(columns, span);
    IndexOfUai(columns, least, most);
  }

  // ----- Is the rule that loses its snapshots in auto mode? -----

  /** The same rules, each of them once, as their logs may iterate. */
  ghost predicate Reordered(order: seq<RuleColumn>, columns: seq<RuleColumn>) {
    UaisSound(order) && forall c :: c in order <==> c in columns
  }

  lemma ReorderedFits(order: seq<RuleColumn>, columns: seq<RuleColumn>, span: nat)
    requires SpanFits(columns, span) && Reordered(order, columns)
    ensures SpanFits(order, span)
  {
    forall i | 0 <= i < |order|
      ensures span <= |order[i].log|
    {
      assert order[i] in columns;
    }
  }

  /** Only a rule in auto mode is to lose its snapshots, whatever the order. */
  ghost predicate WipesOnlyAuto(columns: seq<RuleColumn>, span: nat)
    requires SpanFits(columns, span)
  {
    forall order {:trigger Reordered(order, columns)} :: Reordered(order, columns) ==>
      && SpanFits(order, span)
      && forall c :: c in order && HasUai(c, Sprung(order, span).uaiToWipe) ==> c.isAuto
  }

  /** Some rule in auto mode was given snapshots and has no failure, and none of the others
      was ever given any. */
  predicate OnlyAutoIsStale(columns: seq<RuleColumn>, span: nat)
    requires forall i :: 0 <= i < |columns| ==> span <= |columns[i].log|
  {
    && (exists i :: 0 <= i < |columns| && columns[i].isAuto && IsStale(columns[i], span))
    && (forall i :: 0 <= i < |columns| && !columns[i].isAuto ==> columns[i].hasNoSnapshot)
  }

  /** The columns with one of them moved to the front. */
  function MovedToFront(columns: seq<RuleColumn>, i: nat): seq<RuleColumn>
    requires i < |columns|
  {
    [columns[i]] + columns[..i] + columns[i + 1..]
  }

  lemma {:induction false} SumOfParts(s: seq<nat>, t: seq<nat>)
    ensures SumOfFails(s + t) == SumOfFails(s) + SumOfFails(t)
  {
    if t == [] {
      assert s + t == s;
    } else {
      SumOfParts(s, t[..|t| - 1]);
      assert (s + t)[..|s + t| - 1] == s + t[..|t| - 1];
    }
  }

  lemma CountsOfParts(a: seq<RuleColumn>, b: seq<RuleColumn>, span: nat)
    requires SpanFits(a, span) && SpanFits(b, span)
    ensures SpanFits(a + b, span)
    ensures SumOfFails(FailCounts(a + b, span)) == SumOfFails(FailCounts(a, span)) + SumOfFails(FailCounts(b, span))
  {
    assert FailCounts(a + b, span) == FailCounts(a, span) + FailCounts(b, span);
    SumOfParts(FailCounts(a, span), FailCounts(b, span));
  }

  lemma MovingKeepsSum(columns: seq<RuleColumn>, span: nat, i: nat)
    requires i < |columns| && SpanFits(columns, span)
    ensures SpanFits(MovedToFront(columns, i), span)
    ensures SumOfFails(FailCounts(MovedToFront(columns, i), span)) == SumOfFails(FailCounts(columns, span))
  {
    var front, one, back := columns[..i], [columns[i]], columns[i + 1..];
    assert columns == front + one + back;
    CountsOfParts(front, one, span);
    CountsOfParts(front + one, back, span);
    CountsOfParts(one, front, span);
    CountsOfParts(one + front, back, span);
  }

  lemma MovedIsReordered(columns: seq<RuleColumn>, i: nat)
    requires i < |columns| && UaisSound(columns)
    ensures Reordered(MovedToFront(columns, i), columns)
  {
    assert columns == columns[..i] + [columns[i]] + columns[i + 1..];
  }

  /** With a stale rule in auto mode and none outside it, a rule in auto mode is picked. */
  lemma StaleAutoGoes(columns: seq<RuleColumn>, span: nat)
    requires SpanFits(columns, span) && UaisSound(columns) && OnlyAutoIsStale(columns, span)
    ensures forall c :: c in columns && HasUai(c, Sprung(columns, span).uaiToWipe) ==> c.isAuto
  {
    if SumOfFails(FailCounts(columns, span)) > FAILS_IN_EMPTY_TRAP_MAX {
      var stale :| 0 <= stale < |columns| && columns[stale].isAuto && IsStale(columns[stale], span);
      StaleSnapshotsGoFirst(columns, span, stale);
      var i :| 0 <= i < |columns| && HasUai(columns[i], Sprung(columns, span).uaiToWipe) && IsStale(columns[i], span);
      forall c | c in columns && HasUai(c, Sprung(columns, span).uaiToWipe)
        ensures c == columns[i] && c.isAuto
      {
        var j :| 0 <= j < |columns| && columns[j] == c;
        IndexOfUai(columns, i, j);
      }
    }
  }

  /** The first to be considered is the one to go, if no other has fewer failures. */
  lemma FirstOfLeast(columns: seq<RuleColumn>, span: nat)
    requires columns != [] && SpanFits(columns, span) && UaisSound(columns) && !columns[0].isAuto
    requires SumOfFails(FailCounts(columns, span)) > FAILS_IN_EMPTY_TRAP_MAX
    requires columns[0].hasNoSnapshot ==> forall c :: c in columns ==> !IsStaleIn(c, span)
    ensures Sprung(columns, span).uaiToWipe == columns[0].uai
  {
    var counts := FailCounts(columns, span);
    var flagged := WithNoSnapshot(columns, counts);
    assert AutoFails(columns[0], span) == 0;
    forall i | 0 <= i < |columns|
      ensures flagged[0] <= flagged[i]
    {
      assert !columns[0].hasNoSnapshot || !IsStaleIn(columns[i], span);
    }
    SumAtMost(counts, counts[MaxElement(counts)]);
    IndexOfUai(columns, 0, MaxElement(counts));
  }

  predicate IsStaleIn(c: RuleColumn, span: nat) {
    span <= |c.log| && IsStale(c, span)
  }

  /** A rule outside auto mode that can be made the one picked: one ever given snapshots, if any. */
  lemma OutsideAutoCanGo(columns: seq<RuleColumn>, span: nat, i: nat)
    requires SpanFits(columns, span) && UaisSound(columns) && i < |columns| && !columns[i].isAuto
    requires SumOfFails(FailCounts(columns, span)) > FAILS_IN_EMPTY_TRAP_MAX
    requires columns[i].hasNoSnapshot ==> forall j :: 0 <= j < |columns| ==> !IsStale(columns[j], span)
    ensures !WipesOnlyAuto(columns, span)
  {
    var order := MovedToFront(columns, i);
    MovingKeepsSum(columns, span, i);
    MovedIsReordered(columns, i);
    forall c | c in order
      ensures c.hasNoSnapshot || !columns[i].hasNoSnapshot || !IsStaleIn(c, span)
    {
      var j :| 0 <= j < |columns| && columns[j] == c;
    }
    FirstOfLeast(order, span);
    assert order[0] in order && HasUai(order[0], Sprung(order, span).uaiToWipe);
  }

  /** The rule to lose its snapshots is meant to be one in auto mode.  When the trap catches
      something, it is, in whatever order the logs iterate, exactly if all rules are in auto
      mode, or some rule in auto mode was ever given snapshots and has no failure in the span,
      and no rule outside auto mode was ever given any. */
  lemma WipedIsAutoIff(columns: seq<RuleColumn>, span: nat)
    requires SpanFits(columns, span) && UaisSound(columns)
    requires SumOfFails(FailCounts(columns, span)) > FAILS_IN_EMPTY_TRAP_MAX
    ensures WipesOnlyAuto(columns, span)
       <==> (forall i :: 0 <= i < |columns| ==> columns[i].isAuto) || OnlyAutoIsStale(columns, span)
  {
    if i :| 0 <= i < |columns| && !columns[i].isAuto {
      if OnlyAutoIsStale(columns, span) {
        OnlyAutoInAnyOrder(columns, span);
      } else if j :| 0 <= j < |columns| && !columns[j].isAuto && !columns[j].hasNoSnapshot {
        OutsideAutoCanGo(columns, span, j);
      } else {
        OutsideAutoCanGo(columns, span, i);
      }
    } else {
      forall order: seq<RuleColumn> | Reordered(order, columns)
        ensures SpanFits(order, span) && forall c :: c in order ==> c.isAuto
      {
        ReorderedFits(order, columns, span);
      }
    }
  }

  lemma OnlyAutoInAnyOrder(columns: seq<RuleColumn>, span: nat)
    requires SpanFits(columns, span) && UaisSound(columns) && OnlyAutoIsStale(columns, span)
    ensures WipesOnlyAuto(columns, span)
  {
    var stale :| 0 <= stale < |columns| && columns[stale].isAuto && IsStale(columns[stale], span);
    forall order: seq<RuleColumn> | Reordered(order, columns)
      ensures SpanFits(order, span)
      ensures forall c :: c in order && HasUai(c, Sprung(order, span).uaiToWipe) ==> c.isAuto
    {
      ReorderedFits(order, columns, span);
      assert columns[stale] in order;
      forall i | 0 <= i < |order| && !order[i].isAuto
        ensures order[i].hasNoSnapshot
      {
        assert order[i] in columns;
      }
      StaleAutoGoes(order, span);
    }
  }

  /** Though meant to be a rule in auto mode, the one to lose its snapshots need not be. */
  lemma WipedNeedNotBeAuto() returns (columns: seq<RuleColumn>, span: nat)
    ensures columns != [] && SpanFits(columns, span) && UaisSound(columns)
    ensures Sprung(columns, span) == TrapResult(1, 2) && columns[1].uai == 2 && !columns[1].isAuto
  {
    var failing, idle := RuleColumn(1, [0, 0, 0, 0], true, false), RuleColumn(2, [7, 7, 7, 7], false, false);
    columns, span := [failing, idle], 4;
    assert AutoFails(failing, 1) == 1;
    assert AutoFails(failing, 2) == 2;
    assert AutoFails(failing, 3) == 3;
    assert AutoFails(failing, 4) == 4;
    var counts := FailCounts(columns, span);
    assert counts == [4, 0];
    assert counts[..1] == [4] && [4][..0] == [];
    assert SumOfFails([4]) == 4 && SumOfFails(counts) == 4;
    assert WithNoSnapshot(columns, counts) == [4, 0];
    assert MaxElement(counts) == 0 && MinElement([4, 0]) == 1;
  }

  // ----- How often the trap is enabled -----

  /** The counter of cycles until the trap is next enabled, after one more cycle. */
  function Counted(until: int, perEnable: nat): int {
    if until - 1 < 1 then perEnable else until - 1
  }

  predicate Enables(until: int) {
    until - 1 < 1
  }

  function CountedFor(perEnable: nat, cycles: nat): int {
    if cycles == 0 then perEnable else Counted(CountedFor(perEnable, cycles - 1), perEnable)
  }

  /** The trap is enabled on every cycle that completes its span, and on no other: `spans`
      spans and `more` cycles on, the counter has just so many cycles left. */
  lemma {:induction false} EnabledOncePerSpan(perEnable: nat, spans: nat, more: nat)
    requires more < perEnable
    ensures CountedFor(perEnable, spans * perEnable + more) == perEnable - more
    ensures Enables(CountedFor(perEnable, spans * perEnable + more)) <==> more + 1 == perEnable
    decreases spans, more
  {
    if more > 0 {
      EnabledOncePerSpan(perEnable, spans, more - 1);
    } else if spans > 0 {
      EnabledOncePerSpan(perEnable, spans - 1, perEnable - 1);
      assert spans * perEnable == (spans - 1) * perEnable + perEnable;
    } else {
      assert 0 * perEnable == 0;
    }
  }
}
