/**
 What a root says of its batch, exactly: the tree over the leaves, up to swapping the children of its
 nodes. The tree is the root computed with a pairing that joins two trees, so that it has the shape the
 levels give it, with the last node of an odd level under both children of its parent.
 */
module MerkleBinding {
  import opened Base
  import opened MerkleTree

  datatype Tree<N> = Leaf(value: N) | Node(left: Tree<N>, right: Tree<N>)

  function Join<N>(): Pairing<Tree<N>> {
    (left, right) => Node(left, right)
  }

  function Leafs<N>(leaves: seq<N>): (trees: seq<Tree<N>>)
    ensures |trees| == |leaves| && forall i | 0 <= i < |leaves| :: trees[i] == Leaf(leaves[i])
  {
    seq(|leaves|, i requires 0 <= i < |leaves| => Leaf(leaves[i]))
  }

  function TreeOf<N>(leaves: seq<N>): Tree<N>
    requires |leaves| > 0
  {
    Root(Join<N>(), Leafs(leaves))
  }

  /** The same tree, up to swapping the children of nodes. */
  predicate SameUpToSwaps<N(==)>(s: Tree<N>, t: Tree<N>) {
    match (s, t)
    case (Leaf(x), Leaf(y)) => x == y
    case (Node(a, b), Node(c, d)) =>
      (SameUpToSwaps(a, c) && SameUpToSwaps(b, d)) || (SameUpToSwaps(a, d) && SameUpToSwaps(b, c))
    case _ => false
  }

  // ---------------------------------------------------------------------------------------------
  // Values of trees
  // ---------------------------------------------------------------------------------------------

  function ValueOf<N>(pair: Pairing<N>, t: Tree<N>): N {
    match t
    case Leaf(x) => x
    case Node(left, right) => pair(ValueOf(pair, left), ValueOf(pair, right))
  }

  function ValuesOf<N>(pair: Pairing<N>, trees: seq<Tree<N>>): (values: seq<N>)
    ensures |values| == |trees| && forall i | 0 <= i < |trees| :: values[i] == ValueOf(pair, trees[i])
  {
    seq(|trees|, i requires 0 <= i < |trees| => ValueOf(pair, trees[i]))
  }

  predicate IsPerfect<N>(t: Tree<N>, h: nat) {
    match t
    case Leaf(_) => h == 0
    case Node(left, right) => h > 0 && IsPerfect(left, h - 1) && IsPerfect(right, h - 1)
  }

  /** Every pair hashed for the value of a tree. */
  ghost function PairsIn<N>(pair: Pairing<N>, t: Tree<N>): set<(N, N)> {
    match t
    case Leaf(_) => {}
    case Node(left, right) =>
      {(ValueOf(pair, left), ValueOf(pair, right))} + PairsIn(pair, left) + PairsIn(pair, right)
  }

  lemma ParentsOfValues<N>(pair: Pairing<N>, trees: seq<Tree<N>>)
    ensures ValuesOf(pair, Parents(Join<N>(), trees)) == Parents(pair, ValuesOf(pair, trees))
  {
    var joined, values := Parents(Join<N>(), trees), ValuesOf(pair, trees);
    forall i | 0 <= i < |joined|
      ensures ValuesOf(pair, joined)[i] == Parents(pair, values)[i]
    {
      ParentAt(Join<N>(), trees, i);
      ParentAt(pair, values, i);
    }
  }

  lemma {:induction false} ValueOfRoot<N>(pair: Pairing<N>, trees: seq<Tree<N>>)
    requires |trees| > 0
    ensures ValueOf(pair, Root(Join<N>(), trees)) == Root(pair, ValuesOf(pair, trees))
    decreases |trees|
  {
    if |trees| > 1 {
      ParentsOfValues(pair, trees);
      ValueOfRoot(pair, Parents(Join<N>(), trees));
    }
  }

  lemma {:induction false} RootIsPerfect<N>(trees: seq<Tree<N>>, h: nat)
    requires |trees| > 0 && forall i | 0 <= i < |trees| :: IsPerfect(trees[i], h)
    ensures IsPerfect(Root(Join<N>(), trees), h + Height(|trees|))
    decreases |trees|
  {
    if |trees| > 1 {
      var joined := Parents(Join<N>(), trees);
      forall i | 0 <= i < |joined|
        ensures IsPerfect(joined[i], h + 1)
      {
        ParentAt(Join<N>(), trees, i);
      }
      RootIsPerfect(joined, h + 1);
    }
  }

  lemma PairOfParent<N>(pair: Pairing<N>, trees: seq<Tree<N>>, i: nat, q: (N, N))
    requires 2 * i < |trees| && q in PairsIn(pair, Parents(Join<N>(), trees)[i])
    ensures q in LevelPairs(ValuesOf(pair, trees))
            || exists k :: 0 <= k < |trees| && q in PairsIn(pair, trees[k])
  {
    var values := ValuesOf(pair, trees);
    ParentAt(Join<N>(), trees, i);
    var k := if 2 * i + 1 < |trees| then 2 * i + 1 else 2 * i;
    if q == (values[2 * i], values[k]) {
      assert Right(values, 2 * i) == values[k];
      assert (values[2 * i], Right(values, 2 * i)) in LevelPairs(values);
    } else {
      assert q in PairsIn(pair, trees[2 * i]) || q in PairsIn(pair, trees[k]);
    }
  }

  /** The pairs hashed for the root tree are those hashed level by level. */
  lemma {:induction false} PairsOfRoot<N>(pair: Pairing<N>, trees: seq<Tree<N>>, q: (N, N))
    requires |trees| > 0 && q in PairsIn(pair, Root(Join<N>(), trees))
    ensures q in TreePairs(pair, ValuesOf(pair, trees))
            || exists i :: 0 <= i < |trees| && q in PairsIn(pair, trees[i])
    decreases |trees|
  {
    if |trees| > 1 {
      var joined := Parents(Join<N>(), trees);
      PairsOfRoot(pair, joined, q);
      ParentsOfValues(pair, trees);
      if q !in TreePairs(pair, ValuesOf(pair, joined)) {
        var i :| 0 <= i < |joined| && q in PairsIn(pair, joined[i]);
        PairOfParent(pair, trees, i, q);
      }
    }
  }

  // ---------------------------------------------------------------------------------------------
  // A root determines its tree up to swaps
  // ---------------------------------------------------------------------------------------------

  lemma {:induction false} EqualValuesIff<N(!new)>(pair: Pairing<N>, s: Tree<N>, t: Tree<N>, h: nat)
    requires Symmetric(pair) && IsPerfect(s, h) && IsPerfect(t, h)
    requires NoCollision(pair, PairsIn(pair, s), PairsIn(pair, t))
    ensures ValueOf(pair, s) == ValueOf(pair, t) <==> SameUpToSwaps(s, t)
    decreases h
  {
    if h > 0 {
      EqualValuesIff(pair, s.left, t.left, h - 1);
      EqualValuesIff(pair, s.right, t.right, h - 1);
      EqualValuesIff(pair, s.left, t.right, h - 1);
      EqualValuesIff(pair, s.right, t.left, h - 1);
      var p := (ValueOf(pair, s.left), ValueOf(pair, s.right));
      var q := (ValueOf(pair, t.left), ValueOf(pair, t.right));
      assert pair(p.0, p.1) == pair(q.0, q.1) ==> SamePair(p, q);
      assert pair(q.0, q.1) == pair(q.1, q.0);
    }
  }

  /**
   Of batches of one height, equal roots mean trees that are equal up to swapping the children of nodes,
   and no more.
   */
  lemma EqualRootsIff<N(!new)>(pair: Pairing<N>, a: seq<N>, b: seq<N>)
    requires Symmetric(pair)
    requires |a| > 0 && |b| > 0 && Height(|a|) == Height(|b|)
    requires NoCollision(pair, TreePairs(pair, a), TreePairs(pair, b))
    ensures Root(pair, a) == Root(pair, b) <==> SameUpToSwaps(TreeOf(a), TreeOf(b))
  {
    TreeIsOfBatch(pair, a);
    TreeIsOfBatch(pair, b);
    EqualValuesIff(pair, TreeOf(a), TreeOf(b), Height(|a|));
  }

  lemma TreeIsOfBatch<N>(pair: Pairing<N>, leaves: seq<N>)
    requires |leaves| > 0
    ensures ValueOf(pair, TreeOf(leaves)) == Root(pair, leaves) && IsPerfect(TreeOf(leaves), Height(|leaves|))
    ensures PairsIn(pair, TreeOf(leaves)) <= TreePairs(pair, leaves)
  {
    var trees := Leafs(leaves);
    assert ValuesOf(pair, trees) == leaves;
    ValueOfRoot(pair, trees);
    RootIsPerfect(trees, 0);
    forall q | q in PairsIn(pair, TreeOf(leaves))
      ensures q in TreePairs(pair, leaves)
    {
      PairsOfRoot(pair, trees, q);
    }
  }

  // ---------------------------------------------------------------------------------------------
  // What that leaves of the leaves
  // ---------------------------------------------------------------------------------------------

  function LeavesIn<N>(t: Tree<N>): seq<N> {
    match t
    case Leaf(x) => [x]
    case Node(left, right) => LeavesIn(left) + LeavesIn(right)
  }

  lemma {:induction false} SwapsKeepLeaves<N>(s: Tree<N>, t: Tree<N>)
    requires SameUpToSwaps(s, t)
    ensures multiset(LeavesIn(s)) == multiset(LeavesIn(t))
  {
    if s.Node? {
      if SameUpToSwaps(s.left, t.left) && SameUpToSwaps(s.right, t.right) {
        SwapsKeepLeaves(s.left, t.left);
        SwapsKeepLeaves(s.right, t.right);
      } else {
        SwapsKeepLeaves(s.left, t.right);
        SwapsKeepLeaves(s.right, t.left);
      }
    }
  }

  function LeavesOfAll<N>(trees: seq<Tree<N>>): seq<N> {
    if |trees| == 0 then [] else LeavesIn(trees[0]) + LeavesOfAll(trees[1..])
  }

  /** On full levels no leaf is repeated: the tree has the leaves of its batch, in order. */
  lemma {:induction false} LeavesOfFullRoot<N>(trees: seq<Tree<N>>, h: nat)
    requires |trees| == Pow2(h)
    ensures |trees| > 0 && LeavesIn(Root(Join<N>(), trees)) == LeavesOfAll(trees)
    decreases h
  {
    if h == 0 {
      assert trees[1..] == [];
    } else {
      var joined := Parents(Join<N>(), trees);
      LeavesOfFullRoot(joined, h - 1);
      LeavesOfParents(trees);
    }
  }

  lemma {:induction false} LeavesOfParents<N>(trees: seq<Tree<N>>)
    requires |trees| % 2 == 0
    ensures LeavesOfAll(Parents(Join<N>(), trees)) == LeavesOfAll(trees)
    decreases |trees|
  {
    if |trees| > 0 {
      var joined := Parents(Join<N>(), trees);
      ParentAt(Join<N>(), trees, 0);
      ParentsOfRest(trees);
      LeavesOfParents(trees[2..]);
      assert trees[1..][1..] == trees[2..];
      Associative(LeavesIn(trees[0]), LeavesIn(trees[1]), LeavesOfAll(trees[2..]));
    }
  }

  lemma ParentsOfRest<N>(trees: seq<Tree<N>>)
    requires |trees| > 0 && |trees| % 2 == 0
    ensures Parents(Join<N>(), trees)[1..] == Parents(Join<N>(), trees[2..])
  {
    forall i | 0 <= i < |trees| / 2 - 1
      ensures Parents(Join<N>(), trees)[1..][i] == Parents(Join<N>(), trees[2..])[i]
    {
      ParentAt(Join<N>(), trees, i + 1);
      ParentAt(Join<N>(), trees[2..], i);
    }
  }

  lemma {:induction false} LeavesOfLeafs<N>(leaves: seq<N>)
    ensures LeavesOfAll(Leafs(leaves)) == leaves
  {
    if |leaves| > 0 {
      assert Leafs(leaves)[1..] == Leafs(leaves[1..]);
      LeavesOfLeafs(leaves[1..]);
    }
  }

  /** Batches that fill their trees are bound with how often each leaf occurs. */
  lemma FullBatchesAreBound<N(!new)>(pair: Pairing<N>, a: seq<N>, b: seq<N>, h: nat)
    requires Symmetric(pair) && |a| == |b| == Pow2(h) && |a| > 0
    requires NoCollision(pair, TreePairs(pair, a), TreePairs(pair, b))
    requires Root(pair, a) == Root(pair, b)
    ensures multiset(a) == multiset(b)
  {
    EqualRootsIff(pair, a, b);
    SwapsKeepLeaves(TreeOf(a), TreeOf(b));
    LeavesOfFullRoot(Leafs(a), h);
    LeavesOfFullRoot(Leafs(b), h);
    LeavesOfLeafs(a);
    LeavesOfLeafs(b);
  }

  lemma RootOfThree<N>(pair: Pairing<N>, x: N, y: N, z: N)
    ensures Root(pair, [x, y, z]) == pair(pair(x, y), pair(z, z))
  {
    var parents := Parents(pair, [x, y, z]);
    ParentAt(pair, [x, y, z], 0);
    ParentAt(pair, [x, y, z], 1);
    ParentAt(pair, parents, 0);
    assert Root(pair, [x, y, z]) == Root(pair, parents) == Root(pair, Parents(pair, parents));
  }

  /** Others are not, even of one count: the repeated last leaf stands for one that is not there. */
  lemma EqualCountBindsNoMore<N(!new)>(pair: Pairing<N>, x: N, y: N)
    requires Symmetric(pair)
    ensures Root(pair, [x, x, y]) == Root(pair, [y, y, x])
    ensures x != y ==> multiset([x, x, y]) != multiset([y, y, x])
  {
    var a, b := [x, x, y], [y, y, x];
    RootOfThree(pair, x, x, y);
    RootOfThree(pair, y, y, x);
    if x != y {
      assert multiset(a)[x] == 2 && multiset(b)[x] == 1;
    }
  }
}
