/**
 A binary tree whose levels halve, an odd level pairing its last node with itself. The pairing
 function is a parameter: the results hold for any of them, and those that need it to be free of
 collisions say on which pairs.
 */
module MerkleTree {
  import opened Base

  type Pairing<!N> = (N, N) -> N

  ghost predicate Symmetric<N(!new)>(pair: Pairing<N>) {
    forall a, b :: pair(a, b) == pair(b, a)
  }

  // ---------------------------------------------------------------------------------------------
  // Level by level, as the source builds it
  // ---------------------------------------------------------------------------------------------

  /** What the node at `i` of a level is paired with from the right. */
  function Right<N>(level: seq<N>, i: nat): N
    requires i < |level|
  {
    if i + 1 < |level| then level[i + 1] else level[i]
  }

  function Parents<N>(pair: Pairing<N>, level: seq<N>): (parents: seq<N>)
    ensures |parents| == (|level| + 1) / 2
  {
    seq((|level| + 1) / 2, i requires 0 <= i < (|level| + 1) / 2 => pair(level[2 * i], Right(level, 2 * i)))
  }

  lemma ParentAt<N>(pair: Pairing<N>, level: seq<N>, i: nat)
    requires 2 * i < |level|
    ensures Parents(pair, level)[i] == pair(level[2 * i], Right(level, 2 * i))
  {
  }

  function Root<N>(pair: Pairing<N>, level: seq<N>): N
    requires |level| > 0
    decreases |level|
  {
    if |level| == 1 then level[0] else Root(pair, Parents(pair, level))
  }

  function Sibling<N>(level: seq<N>, position: nat): N
    requires position < |level|
  {
    var sibling := if position % 2 == 0 then position + 1 else position - 1;
    if sibling < |level| then level[sibling] else level[position]
  }

  function Proof<N>(pair: Pairing<N>, level: seq<N>, position: nat): seq<N>
    requires position < |level|
    decreases |level|
  {
    if |level| == 1 then []
    else [Sibling(level, position)] + Proof(pair, Parents(pair, level), position / 2)
  }

  /** Hashing a node with one sibling after the other. */
  function Climb<N>(pair: Pairing<N>, node: N, proof: seq<N>): N
    decreases |proof|
  {
    if |proof| == 0 then node else Climb(pair, pair(node, proof[0]), proof[1..])
  }

  /** The level `h` above the leaves. */
  function Level<N>(pair: Pairing<N>, leaves: seq<N>, h: nat): seq<N>
    decreases h
  {
    if h == 0 then leaves else Level(pair, Parents(pair, leaves), h - 1)
  }

  function Height(leaves: nat): nat {
    if leaves <= 1 then 0 else 1 + Height((leaves + 1) / 2)
  }

  /** The height is the least power of two that covers the leaves: ceil(log2 n). */
  lemma {:induction false} HeightIsCeilLog2(n: nat)
    requires n >= 1
    ensures n <= Pow2(Height(n))
    ensures Height(n) > 0 ==> Pow2(Height(n) - 1) < n
  {
    if n > 1 {
      HeightIsCeilLog2((n + 1) / 2);
    }
  }

  // ---------------------------------------------------------------------------------------------
  // The same tree from the top down
  // ---------------------------------------------------------------------------------------------

  function Width(n: nat, h: nat): nat {
    if h == 0 then n else (Width(n, h - 1) + 1) / 2
  }

  /** Node `j` of the level `h` above the leaves, by recursion on its two subtrees. */
  function NodeAt<N>(pair: Pairing<N>, leaves: seq<N>, h: nat, j: nat): N
    requires j < Width(|leaves|, h)
    decreases h
  {
    if h == 0 then leaves[j]
    else
      var right := if 2 * j + 1 < Width(|leaves|, h - 1) then 2 * j + 1 else 2 * j;
      pair(NodeAt(pair, leaves, h - 1, 2 * j), NodeAt(pair, leaves, h - 1, right))
  }

  lemma {:induction false} WidthShift(n: nat, h: nat)
    ensures Width((n + 1) / 2, h) == Width(n, h + 1)
  {
    if h > 0 {
      WidthShift(n, h - 1);
    }
  }

  lemma {:induction false} NodeAtShift<N>(pair: Pairing<N>, leaves: seq<N>, h: nat, j: nat)
    requires j < Width(|leaves|, h + 1)
    ensures j < Width(|Parents(pair, leaves)|, h)
    ensures NodeAt(pair, Parents(pair, leaves), h, j) == NodeAt(pair, leaves, h + 1, j)
    decreases h
  {
    WidthShift(|leaves|, h);
    if h == 0 {
      assert Width(|leaves|, 1) == (Width(|leaves|, 0) + 1) / 2;
      ParentAt(pair, leaves, j);
    } else {
      WidthShift(|leaves|, h - 1);
      NodeAtShift(pair, leaves, h - 1, 2 * j);
      if 2 * j + 1 < Width(|leaves|, h) {
        NodeAtShift(pair, leaves, h - 1, 2 * j + 1);
      }
    }
  }

  /** Halving the levels until one node is left computes the top of the recursive tree. */
  lemma {:induction false} RootIsTopOfTree<N>(pair: Pairing<N>, leaves: seq<N>)
    requires |leaves| > 0
    ensures Width(|leaves|, Height(|leaves|)) == 1
    ensures Root(pair, leaves) == NodeAt(pair, leaves, Height(|leaves|), 0)
    decreases |leaves|
  {
    if |leaves| > 1 {
      var parents := Parents(pair, leaves);
      RootIsTopOfTree(pair, parents);
      WidthShift(|leaves|, Height(|parents|));
      NodeAtShift(pair, leaves, Height(|parents|), 0);
    }
  }

  // ---------------------------------------------------------------------------------------------
  // Completeness
  // ---------------------------------------------------------------------------------------------

  lemma SiblingPair<N(!new)>(pair: Pairing<N>, level: seq<N>, position: nat)
    requires Symmetric(pair) && position < |level|
    ensures pair(level[position], Sibling(level, position)) == Parents(pair, level)[position / 2]
  {
    ParentAt(pair, level, position / 2);
    assert pair(level[position], Sibling(level, position)) == pair(Sibling(level, position), level[position]);
  }

  lemma {:induction false} ProofClimbsToRoot<N(!new)>(pair: Pairing<N>, level: seq<N>, position: nat)
    requires Symmetric(pair) && position < |level|
    ensures Climb(pair, level[position], Proof(pair, level, position)) == Root(pair, level)
    ensures |Proof(pair, level, position)| == Height(|level|)
    decreases |level|
  {
    if |level| > 1 {
      var parents := Parents(pair, level);
      ProofClimbsToRoot(pair, parents, position / 2);
      SiblingPair(pair, level, position);
      assert Proof(pair, level, position)[1..] == Proof(pair, parents, position / 2);
    }
  }

  // ---------------------------------------------------------------------------------------------
  // Soundness
  // ---------------------------------------------------------------------------------------------

  /** Every pair hashed while the tree over `level` is built. */
  ghost function TreePairs<N>(pair: Pairing<N>, level: seq<N>): set<(N, N)>
    decreases |level|
  {
    if |level| <= 1 then {} else LevelPairs(level) + TreePairs(pair, Parents(pair, level))
  }

  ghost function LevelPairs<N>(level: seq<N>): set<(N, N)> {
    set i | 0 <= i < |level| && i % 2 == 0 :: (level[i], Right(level, i))
  }

  /** Every pair hashed while a proof is checked. */
  ghost function PathPairs<N>(pair: Pairing<N>, node: N, proof: seq<N>): set<(N, N)>
    decreases |proof|
  {
    if |proof| == 0 then {}
    else {(node, proof[0])} + PathPairs(pair, pair(node, proof[0]), proof[1..])
  }

  ghost predicate SamePair<N>(p: (N, N), q: (N, N)) {
    p == q || p == (q.1, q.0)
  }

  ghost predicate NoCollision<N>(pair: Pairing<N>, ps: set<(N, N)>, qs: set<(N, N)>) {
    forall p, q | p in ps && q in qs :: pair(p.0, p.1) == pair(q.0, q.1) ==> SamePair(p, q)
  }

  /**
   A climb of `m` steps that reaches the root started at a node exactly `m` levels below it, and
   at nothing else.
   */
  lemma {:induction false} ClimbersAreNodes<N>(pair: Pairing<N>, leaves: seq<N>, node: N, proof: seq<N>)
    requires |leaves| > 0 && |proof| <= Height(|leaves|)
    requires Climb(pair, node, proof) == Root(pair, leaves)
    requires NoCollision(pair, TreePairs(pair, leaves), PathPairs(pair, node, proof))
    ensures node in Level(pair, leaves, Height(|leaves|) - |proof|)
    decreases |leaves|, |proof|
  {
    if |leaves| == 1 {
    } else if |proof| < Height(|leaves|) {
      ClimbersAreNodes(pair, Parents(pair, leaves), node, proof);
    } else {
      var parents := Parents(pair, leaves);
      var node' := pair(node, proof[0]);
      ClimbersAreNodes(pair, parents, node', proof[1..]);
      var i :| 0 <= i < |parents| && parents[i] == node';
      ParentAt(pair, leaves, i);
      var p := (leaves[2 * i], Right(leaves, 2 * i));
      assert p in LevelPairs(leaves);
      assert SamePair(p, (node, proof[0]));
    }
  }

  lemma {:induction false} PathStaysInTree<N(!new)>(pair: Pairing<N>, level: seq<N>, position: nat)
    requires Symmetric(pair) && position < |level|
    ensures forall q | q in PathPairs(pair, level[position], Proof(pair, level, position)) ::
              q in TreePairs(pair, level) || (q.1, q.0) in TreePairs(pair, level)
    decreases |level|
  {
    if |level| > 1 {
      var parents := Parents(pair, level);
      var i := 2 * (position / 2);
      PathStaysInTree(pair, parents, position / 2);
      SiblingPair(pair, level, position);
      assert (level[i], Right(level, i)) in LevelPairs(level);
      assert Proof(pair, level, position)[1..] == Proof(pair, parents, position / 2);
    }
  }

  lemma RootCoversLeaves<N(!new)>(pair: Pairing<N>, a: seq<N>, b: seq<N>)
    requires Symmetric(pair)
    requires |a| > 0 && |b| > 0 && Height(|a|) == Height(|b|)
    requires Root(pair, a) == Root(pair, b)
    requires NoCollision(pair, TreePairs(pair, b), TreePairs(pair, a))
    ensures forall i | 0 <= i < |a| :: a[i] in b
  {
    forall i | 0 <= i < |a|
      ensures a[i] in b
    {
      var proof := Proof(pair, a, i);
      ProofClimbsToRoot(pair, a, i);
      PathStaysInTree(pair, a, i);
      forall p, q | p in TreePairs(pair, b) && q in PathPairs(pair, a[i], proof) &&
                    pair(p.0, p.1) == pair(q.0, q.1)
        ensures SamePair(p, q)
      {
        var q' := if q in TreePairs(pair, a) then q else (q.1, q.0);
        assert pair(q.0, q.1) == pair(q'.0, q'.1);
        assert SamePair(p, q');
      }
      ClimbersAreNodes(pair, b, a[i], proof);
    }
  }

  /** Batches of one height with one root contain the same leaves. */
  lemma RootBindsLeaves<N(!new)>(pair: Pairing<N>, a: seq<N>, b: seq<N>)
    requires Symmetric(pair)
    requires |a| > 0 && |b| > 0 && Height(|a|) == Height(|b|)
    requires Root(pair, a) == Root(pair, b)
    requires NoCollision(pair, TreePairs(pair, a), TreePairs(pair, b))
    ensures (set x | x in a) == (set x | x in b)
  {
    RootCoversLeaves(pair, b, a);
    forall p, q | p in TreePairs(pair, b) && q in TreePairs(pair, a) && pair(p.0, p.1) == pair(q.0, q.1)
      ensures SamePair(p, q)
    {
      assert SamePair(q, p);
    }
    RootCoversLeaves(pair, a, b);
  }

  // ---------------------------------------------------------------------------------------------
  // What a root and a bare climb do not fix
  // ---------------------------------------------------------------------------------------------

  /** Repeating the last leaf of an odd batch leaves the root unchanged. */
  lemma RepeatedLastLeafSameRoot<N>(pair: Pairing<N>, leaves: seq<N>)
    requires |leaves| > 1 && |leaves| % 2 == 1
    ensures Root(pair, leaves + [leaves[|leaves| - 1]]) == Root(pair, leaves)
  {
    var more := leaves + [leaves[|leaves| - 1]];
    var parents := Parents(pair, leaves);
    assert |Parents(pair, more)| == |parents|;
    forall i | 0 <= i < |parents|
      ensures Parents(pair, more)[i] == parents[i]
    {
      ParentAt(pair, more, i);
      ParentAt(pair, leaves, i);
    }
    assert Parents(pair, more) == parents;
    assert Root(pair, more) == Root(pair, Parents(pair, more));
  }

  /** Every level of the tree has the tree's root, and is as much lower as it is up. */
  lemma {:induction false} LevelHasSameRoot<N>(pair: Pairing<N>, leaves: seq<N>, h: nat)
    requires |leaves| > 0 && h <= Height(|leaves|)
    ensures var level := Level(pair, leaves, h);
            |level| > 0 && Root(pair, level) == Root(pair, leaves) && Height(|level|) == Height(|leaves|) - h
    decreases h
  {
    if h > 0 {
      LevelHasSameRoot(pair, Parents(pair, leaves), h - 1);
    }
  }
}
