/** Names of groups in the knowledge base file, and how a group's subgroups are listed.

    A group or dataset is named by its axis letter and a three-digit id.  To list the
    subgroups of a group, the file library calls an operator once per name, which
    concatenates the names into one fixed buffer of characters; two loops then walk the
    buffer to take the names and the ids out again. */
module GroupNames {

  const BUFFER_SIZE: nat := 100
  const MAX_SUBGROUPS: nat := 24
  const MAX_ID: nat := 999
  const NUL: char := '\0'

  predicate IsAxis(axis: char) {
    axis == 'R' || axis == 'H' || axis == 'E'
  }

  predicate IsId(id: nat) {
    1 <= id <= MAX_ID
  }

  function Digit(d: nat): char
    requires d < 10
  {
    (48 + d) as char
  }

  function ConvertIdToName(axis: char, id: nat): string {
    if IsAxis(axis) && IsId(id)
    then [axis, Digit(id / 100), Digit(id / 10 % 10), Digit(id % 10)]
    else ""
  }

  /** The number spelled by the three characters after the axis letter. */
  function IdSpelled(hundreds: char, tens: char, ones: char): int {
    (hundreds as int - 48) * 100 + (tens as int - 48) * 10 + (ones as int - 48)
  }

  lemma NameSpellsId(axis: char, id: nat)
    requires IsAxis(axis) && IsId(id)
    ensures var name := ConvertIdToName(axis, id); |name| == 4 && name[0] == axis && NUL !in name
    ensures var name := ConvertIdToName(axis, id); IdSpelled(name[1], name[2], name[3]) == id
  {
    assert id == (id / 100) * 100 + (id / 10 % 10) * 10 + id % 10;
  }

  /** A name is empty exactly when nothing can be filed under it; otherwise it
      determines both the axis and the id. */
  lemma NamesAreUnique(axis: char, id: nat, axis': char, id': nat)
    ensures ConvertIdToName(axis, id) == ConvertIdToName(axis', id')
       <==> (axis == axis' && id == id') || (!(IsAxis(axis) && IsId(id)) && !(IsAxis(axis') && IsId(id')))
  {
    if IsAxis(axis) && IsId(id) {
      NameSpellsId(axis, id);
      if IsAxis(axis') && IsId(id') {
        NameSpellsId(axis', id');
      }
    }
  }

  /** Rules, hypotheses and evidence items number 1 to 999 have a name: a letter and three decimal
      digits, the highest first. */
  lemma NameIsSpelledOut(axis: char, id: nat)
    ensures var name := ConvertIdToName(axis, id);
            if (axis == 'R' || axis == 'H' || axis == 'E') && 0 < id < 1000 then
              && |name| == 4 && name[0] == axis
              && '0' <= name[1] <= '9' && '0' <= name[2] <= '9' && '0' <= name[3] <= '9'
              && (name[1] - '0') as int * 100 + (name[2] - '0') as int * 10 + (name[3] - '0') as int == id
            else name == ""
  {
    if IsAxis(axis) && IsId(id) {
      NameSpellsId(axis, id);
    }
  }

  predicate ValidIds(ids: seq<nat>) {
    forall i :: 0 <= i < |ids| ==> IsId(ids[i])
  }

  function NamesOf(axis: char, ids: seq<nat>): seq<string> {
    seq(|ids|, i requires 0 <= i < |ids| => ConvertIdToName(axis, ids[i]))
  }

  /** What the operator has written after being called on each id's name in turn. */
  function Joined(axis: char, ids: seq<nat>): string {
    if ids == [] then ""
    else Joined(axis, ids[..|ids| - 1]) + ConvertIdToName(axis, ids[|ids| - 1])
  }

  lemma {:induction false} JoinedHasNoNul(axis: char, ids: seq<nat>)
    requires IsAxis(axis) && ValidIds(ids)
    ensures |Joined(axis, ids)| == 4 * |ids| && NUL !in Joined(axis, ids)
  {
    if ids != [] {
      JoinedHasNoNul(axis, ids[..|ids| - 1]);
      NameSpellsId(axis, ids[|ids| - 1]);
    }
  }

  /** The i-th name stands at offset 4*i of the joined names. */
  lemma {:induction false} JoinedAt(axis: char, ids: seq<nat>, i: nat, j: nat)
    requires IsAxis(axis) && ValidIds(ids) && i < |ids| && j < 4
    ensures |Joined(axis, ids)| == 4 * |ids| && |ConvertIdToName(axis, ids[i])| == 4
    ensures Joined(axis, ids)[4 * i + j] == ConvertIdToName(axis, ids[i])[j]
  {
    var front := ids[..|ids| - 1];
    JoinedHasNoNul(axis, ids);
    JoinedHasNoNul(axis, front);
    if i < |front| {
      JoinedAt(axis, front, i, j);
    }
  }

  /** The buffer holds the names of `ids` and then its terminator. */
  ghost predicate Holds(chars: seq<char>, axis: char, ids: seq<nat>) {
    && |chars| == BUFFER_SIZE
    && IsAxis(axis) && ValidIds(ids) && |ids| <= MAX_SUBGROUPS
    && |Joined(axis, ids)| == 4 * |ids|
    && chars[..4 * |ids|] == Joined(axis, ids)
    && chars[4 * |ids|] == NUL
  }

  lemma HoldsOneMore(before: seq<char>, after: seq<char>, axis: char, ids: seq<nat>, id: nat)
    requires Holds(before, axis, ids) && |ids| < MAX_SUBGROUPS && IsId(id)
    requires |ConvertIdToName(axis, id)| == 4
    requires after == before[..4 * |ids|] + ConvertIdToName(axis, id) + [NUL] + before[4 * |ids| + 5..]
    ensures Holds(after, axis, ids + [id])
  {
    assert (ids + [id])[..|ids|] == ids;
    assert Joined(axis, ids + [id]) == Joined(axis, ids) + ConvertIdToName(axis, id);
    assert after[..4 * |ids| + 4] == before[..4 * |ids|] + ConvertIdToName(axis, id);
  }

  lemma HeldAt(chars: seq<char>, axis: char, ids: seq<nat>, i: nat)
    requires Holds(chars, axis, ids) && i < |ids|
    ensures |ConvertIdToName(axis, ids[i])| == 4
    ensures forall j :: 0 <= j < 4 ==> chars[4 * i + j] == ConvertIdToName(axis, ids[i])[j]
    ensures chars[4 * i] == axis && chars[4 * i] != NUL
    ensures IdSpelled(chars[4 * i + 1], chars[4 * i + 2], chars[4 * i + 3]) == ids[i]
  {
    NameSpellsId(axis, ids[i]);
    forall j | 0 <= j < 4
      ensures chars[4 * i + j] == ConvertIdToName(axis, ids[i])[j]
    {
      JoinedAt(axis, ids, i, j);
      assert chars[4 * i + j] == chars[..4 * |ids|][4 * i + j];
    }
    assert chars[4 * i + 0] == axis;
  }

  /** The list of subgroups found under one group. */
  class SubgroupListing {
    var namesExtracted: seq<string>
    var idsExtracted: seq<nat>
    const charsFound: array<char>
    var numSubgrpsFound: int
    var numIdsExtracted: nat
    var numNamesExtracted: nat
    const axisExpected: char

    /** `names` is what the file library finds, in its own order. */
    constructor (names: seq<string>, axis: char, ghost ids: seq<nat>)
      requires IsAxis(axis) && ValidIds(ids) && |ids| <= MAX_SUBGROUPS
      requires names == NamesOf(axis, ids)
      ensures fresh(charsFound)
      ensures namesExtracted == names
      ensures idsExtracted == ids
      ensures numSubgrpsFound == |ids|
    {
      namesExtracted, idsExtracted := [], [];
      charsFound := new char[BUFFER_SIZE](_ => NUL);
      numSubgrpsFound, numIdsExtracted, numNamesExtracted := 0, 0, 0;
      axisExpected := axis;
      new;
      Iterate(names, ids);
      var _ := ExtractNamesFromChars(ids);
      var _ := ExtractIdsFromChars(ids);
      CheckNamesAgainstIds();
    }

    /** Disowns everything extracted when the two loops disagree on how many there were. */
    method CheckNamesAgainstIds()
      modifies this`namesExtracted, this`idsExtracted, this`numSubgrpsFound
      ensures numNamesExtracted == numIdsExtracted ==>
                && numSubgrpsFound == numNamesExtracted
                && namesExtracted == old(namesExtracted) && idsExtracted == old(idsExtracted)
      ensures numNamesExtracted != numIdsExtracted ==>
                numSubgrpsFound == -1 && namesExtracted == [] && idsExtracted == []
    {
      numSubgrpsFound := numNamesExtracted;
      if numNamesExtracted != numIdsExtracted {
        namesExtracted, idsExtracted := [], [];
        numSubgrpsFound := -1;
      }
    }

    /** The file library's walk over a group: the operator once per name. */
    method Iterate(names: seq<string>, ghost ids: seq<nat>)
      requires forall j :: 0 <= j < charsFound.Length ==> charsFound[j] == NUL
      requires charsFound.Length == BUFFER_SIZE
      requires IsAxis(axisExpected) && ValidIds(ids) && |ids| <= MAX_SUBGROUPS
      requires names == NamesOf(axisExpected, ids)
      modifies charsFound
      ensures Holds(charsFound[..], axisExpected, ids)
    {
      assert charsFound[..0] == Joined(axisExpected, ids[..0]);
      for i := 0 to |names|
        invariant Holds(charsFound[..], axisExpected, ids[..i])
      {
        IteratedOp(names[i], ids[..i], ids[i]);
        assert ids[..i] + [ids[i]] == ids[..i + 1];
      }
      assert ids[..|names|] == ids;
    }

    /** Appends one name to the text in the buffer. */
    method IteratedOp(name: string, ghost ids: seq<nat>, ghost id: nat)
      requires Holds(charsFound[..], axisExpected, ids)
      requires IsId(id) && name == ConvertIdToName(axisExpected, id) && |ids| < MAX_SUBGROUPS
      modifies charsFound
      ensures Holds(charsFound[..], axisExpected, ids + [id])
    {
      NameSpellsId(axisExpected, id);
      var end := EndOfText(ids);
      ghost var before := charsFound[..];
      PutAt(end, name);
      HoldsOneMore(before, charsFound[..], axisExpected, ids, id);
    }

    /** Where the terminator stands. */
    method EndOfText(ghost ids: seq<nat>) returns (end: nat)
      requires Holds(charsFound[..], axisExpected, ids)
      ensures end == 4 * |ids|
    {
      JoinedHasNoNul(axisExpected, ids);
      assert forall i :: 0 <= i < 4 * |ids| ==> charsFound[i] == Joined(axisExpected, ids)[i];
      end := 0;
      while charsFound[end] != NUL
        invariant 0 <= end <= 4 * |ids|
        decreases 4 * |ids| - end
      {
        assert charsFound[end] != charsFound[..][4 * |ids|];
        end := end + 1;
      }
    }

    method PutAt(end: nat, name: string)
      requires |name| == 4 && end + 4 < charsFound.Length
      modifies charsFound
      ensures charsFound[..] == old(charsFound[..end]) + name + [NUL] + old(charsFound[end + 5..])
    {
      for j := 0 to 4
        invariant forall k :: 0 <= k < j ==> charsFound[end + k] == name[k]
        invariant forall k :: 0 <= k < charsFound.Length && !(end <= k < end + j) ==>
                    charsFound[k] == old(charsFound[k])
      {
        charsFound[end + j] := name[j];
      }
      charsFound[end + 4] := NUL;
    }

    method ExtractNamesFromChars(ghost ids: seq<nat>) returns (reply: int)
      requires Holds(charsFound[..], axisExpected, ids)
      modifies this`namesExtracted, this`numNamesExtracted
      ensures namesExtracted == NamesOf(axisExpected, ids)
      ensures numNamesExtracted == old(numNamesExtracted) + |ids|
      ensures reply == -1
    {
      reply := -1;
      namesExtracted := [];
      if charsFound[0] != NUL {
        var p := 0;
        ghost var i := 0;
        while p < charsFound.Length
          invariant p == 4 * i && 0 <= i <= |ids|
          invariant |namesExtracted| == i
          invariant forall k :: 0 <= k < i ==> namesExtracted[k] == ConvertIdToName(axisExpected, ids[k])
          invariant numNamesExtracted == old(numNamesExtracted) + i
          decreases |ids| - i
        {
          if charsFound[p] != NUL {
            assert i < |ids|;
            HeldAt(charsFound[..], axisExpected, ids, i);
            if charsFound[p] == axisExpected {
              ghost var name := ConvertIdToName(axisExpected, ids[i]);
              var nameToBuild := "";
              for laps := 0 to 4
                invariant p == 4 * i + laps
                invariant nameToBuild == name[..laps]
              {
                assert charsFound[p] == name[laps] && name[..laps + 1] == name[..laps] + [name[laps]];
                nameToBuild := nameToBuild + [charsFound[p]];
                p := p + 1;
              }
              assert nameToBuild == name;
              namesExtracted := namesExtracted + [nameToBuild];
              numNamesExtracted := numNamesExtracted + 1;
              i := i + 1;
            }
          } else {
            if i < |ids| {
              HeldAt(charsFound[..], axisExpected, ids, i);
            }
            return reply;
          }
        }
        reply := 0;
      } else {
        if |ids| > 0 {
          HeldAt(charsFound[..], axisExpected, ids, 0);
        }
      }
    }

    method ExtractIdsFromChars(ghost ids: seq<nat>) returns (reply: int)
      requires Holds(charsFound[..], axisExpected, ids)
      modifies this`idsExtracted, this`numIdsExtracted
      ensures idsExtracted == ids
      ensures numIdsExtracted == old(numIdsExtracted) + |ids|
      ensures reply == if ids == [] then -1 else 0
    {
      reply := -1;
      idsExtracted := [];
      if charsFound[0] != NUL {
        var p := 0;
        ghost var i := 0;
        while p < charsFound.Length
          invariant p == 4 * i && 0 <= i <= |ids|
          invariant idsExtracted == ids[..i]
          invariant numIdsExtracted == old(numIdsExtracted) + i
          invariant reply == if i == 0 then -1 else 0
          decreases |ids| - i
        {
          if charsFound[p] != NUL {
            assert i < |ids|;
            HeldAt(charsFound[..], axisExpected, ids, i);
            if charsFound[p] == axisExpected {
              assert ids[..i + 1] == ids[..i] + [ids[i]];
              var idToBuild: int := 0;
              p := p + 1;
              idToBuild := idToBuild + (charsFound[p] as int - 48) * 100;
              p := p + 1;
              idToBuild := idToBuild + (charsFound[p] as int - 48) * 10;
              p := p + 1;
              idToBuild := idToBuild + (charsFound[p] as int - 48) * 1;
              idsExtracted := idsExtracted + [idToBuild];
              numIdsExtracted := numIdsExtracted + 1;
              p := p + 1;
              i := i + 1;
            }
            reply := 0;
          } else {
            if i < |ids| {
              HeldAt(charsFound[..], axisExpected, ids, i);
            }
            assert ids[..i] == ids;
            return reply;
          }
        }
      } else {
        if |ids| > 0 {
          HeldAt(charsFound[..], axisExpected, ids, 0);
        }
      }
    }
  }
}
