/** The nodes of the diagnostic knowledge base.

    A node sits at one (rule, hypothesis, evidence) triple and holds a joint
    occurrence table of three rows (evidence false, true, unevaluated) by two
    columns (hypothesis false, hypothesis true).  The file keeps a table only for
    the triples met so far; an absent table reads as all zeros, which is also what
    a newly created one holds. */
module Nodes {

  const ROW_FALSE: nat := 0
  const ROW_TRUE: nat := 1
  const ROW_UNEVALUATED: nat := 2
  const NUM_ROWS: nat := 3

  type Column = c: seq<int> | |c| == NUM_ROWS witness [0, 0, 0]

  datatype Knode = Knode(falses: Column, trues: Column)

  datatype NodeKey = NodeKey(rule: nat, hypo: nat, evid: nat)

  type NodeMap = map<NodeKey, Knode>

  const EMPTY_NODE := Knode([0, 0, 0], [0, 0, 0])

  function At(nodes: NodeMap, key: NodeKey): Knode {
    if key in nodes then nodes[key] else EMPTY_NODE
  }

  function Increment(c: Column, row: nat): Column
    requires row < NUM_ROWS
  {
    c[row := c[row] + 1]
  }

  function ColumnTotal(c: Column): int {
    c[0] + c[1] + c[2]
  }

  predicate NonNegativeNode(n: Knode) {
    forall v :: 0 <= v < NUM_ROWS ==> 0 <= n.falses[v] && 0 <= n.trues[v]
  }

  predicate NonNegative(nodes: NodeMap) {
    forall k {:trigger nodes[k]} :: k in nodes ==> NonNegativeNode(nodes[k])
  }

  /** Same counts at every triple, whether or not a table is on file for it. */
  ghost predicate SameCounts(a: NodeMap, b: NodeMap) {
    forall k :: At(a, k) == At(b, k)
  }

  lemma SameCountsNonNegative(a: NodeMap, b: NodeMap)
    requires SameCounts(a, b) && NonNegative(b)
    ensures NonNegative(a)
  {
    forall k | k in a
      ensures NonNegativeNode(a[k])
    {
      assert a[k] == At(a, k) == At(b, k);
    }
  }

  /** Creating the missing tables among `keys`, each zero filled. */
  function Touched(nodes: NodeMap, keys: set<NodeKey>): (r: NodeMap)
    ensures forall k :: At(r, k) == At(nodes, k)
  {
    map k | k in nodes.Keys + keys :: At(nodes, k)
  }

  lemma TouchedOne(nodes: NodeMap, key: NodeKey)
    ensures Touched(nodes, {key}) == if key in nodes then nodes else nodes[key := EMPTY_NODE]
  {
  }

  predicate Distinct<T(==)>(s: seq<T>) {
    forall i, j :: 0 <= i < j < |s| ==> s[i] != s[j]
  }

  function Range<T>(s: seq<T>): set<T> {
    set x | x in s
  }
}
