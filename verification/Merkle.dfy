/**
 Merkle roots and inclusion proofs over receipt hashes. Keccak is a parameter; no result assumes
 more of it than that it prints hashes and does not collide on payloads a statement names.
 */
module Merkle {
  import opened Base
  import opened Digits
  import opened Hex
  import opened MerkleTree
  import MerkleBinding

  datatype MerkleError = BadLeaf | BadIndex

  /** keccak256 of a 0x-prefixed payload, printed as ethers prints it. */
  type Keccak = string -> string

  const ZERO_HASH: string := "0x" + Zeros(64)

  predicate IsHash(s: string) {
    IsHex(s, 64)
  }

  predicate AreHashes(texts: seq<string>) {
    forall i | 0 <= i < |texts| :: IsHash(texts[i])
  }

  /** A node is a normalised hash: 0x and 64 lower-case hex digits. */
  predicate IsNode(s: string) {
    IsHash(s) && Lower(s) == s
  }

  ghost predicate AreNodes(nodes: seq<string>) {
    forall i | 0 <= i < |nodes| :: IsNode(nodes[i])
  }

  ghost predicate PrintsNodes(keccak: Keccak) {
    forall x :: IsNode(keccak(x))
  }

  // ---------------------------------------------------------------------------------------------
  // hashPair: a sorted pair under keccak
  // ---------------------------------------------------------------------------------------------

  /** `a < b` on strings. */
  predicate Before(a: string, b: string) {
    |b| > 0 && (|a| == 0 || a[0] < b[0] || (a[0] == b[0] && Before(a[1..], b[1..])))
  }

  lemma {:induction false} BeforeIsTotal(a: string, b: string)
    ensures !(Before(a, b) && Before(b, a))
    ensures Before(a, b) || Before(b, a) || a == b
  {
    if |a| > 0 && |b| > 0 {
      BeforeIsTotal(a[1..], b[1..]);
      assert a == [a[0]] + a[1..] && b == [b[0]] + b[1..];
    }
  }

  function Bytes(hex: string): string {
    if |hex| >= 2 then hex[2..] else ""
  }

  /** The text hashed for a pair: the smaller node, then the larger one. */
  function Payload(a: string, b: string): string {
    if Before(a, b) then "0x" + Bytes(a) + Bytes(b) else "0x" + Bytes(b) + Bytes(a)
  }

  function HashPair(keccak: Keccak): (pair: Pairing<string>)
    ensures forall a, b :: pair(a, b) == keccak(Payload(a, b))
  {
    (a, b) => keccak(Payload(a, b))
  }

  lemma HashPairIsSymmetric(keccak: Keccak)
    ensures Symmetric(HashPair(keccak))
  {
    forall a, b
      ensures HashPair(keccak)(a, b) == HashPair(keccak)(b, a)
    {
      BeforeIsTotal(a, b);
      assert Payload(a, b) == Payload(b, a);
    }
  }

  lemma NodeText(a: string)
    requires IsNode(a)
    ensures |a| == 66 && a == "0x" + Bytes(a)
  {
  }

  lemma HalvesOf(p: string, a: string, b: string)
    requires IsNode(a) && IsNode(b) && p == "0x" + Bytes(a) + Bytes(b)
    ensures |p| == 130 && a == p[..66] && b == "0x" + p[66..]
  {
    NodeText(a);
    NodeText(b);
  }

  /** A payload determines the unordered pair it was made from. */
  lemma PayloadDeterminesPair(a: string, b: string, c: string, d: string)
    requires IsNode(a) && IsNode(b) && IsNode(c) && IsNode(d)
    requires Payload(a, b) == Payload(c, d)
    ensures SamePair((a, b), (c, d))
  {
    var (lo, hi) := if Before(a, b) then (a, b) else (b, a);
    var (lo', hi') := if Before(c, d) then (c, d) else (d, c);
    HalvesOf(Payload(a, b), lo, hi);
    HalvesOf(Payload(a, b), lo', hi');
  }

  /** Keccak has no collision between the payloads of two sets of pairs. */
  ghost predicate CollisionFree(keccak: Keccak, ps: set<(string, string)>, qs: set<(string, string)>) {
    forall p, q | p in ps && q in qs ::
      keccak(Payload(p.0, p.1)) == keccak(Payload(q.0, q.1)) ==> Payload(p.0, p.1) == Payload(q.0, q.1)
  }

  ghost predicate ArePairsOfNodes(ps: set<(string, string)>) {
    forall p | p in ps :: IsNode(p.0) && IsNode(p.1)
  }

  lemma CollisionFreePairing(keccak: Keccak, ps: set<(string, string)>, qs: set<(string, string)>)
    requires CollisionFree(keccak, ps, qs) && ArePairsOfNodes(ps) && ArePairsOfNodes(qs)
    ensures NoCollision(HashPair(keccak), ps, qs)
  {
    forall p, q | p in ps && q in qs && HashPair(keccak)(p.0, p.1) == HashPair(keccak)(q.0, q.1)
      ensures SamePair(p, q)
    {
      PayloadDeterminesPair(p.0, p.1, q.0, q.1);
    }
  }

  lemma ParentsAreNodes(keccak: Keccak, level: seq<string>)
    requires PrintsNodes(keccak)
    ensures AreNodes(Parents(HashPair(keccak), level))
  {
    forall i | 0 <= i < |Parents(HashPair(keccak), level)|
      ensures IsNode(Parents(HashPair(keccak), level)[i])
    {
      ParentAt(HashPair(keccak), level, i);
      assert IsNode(keccak(Payload(level[2 * i], Right(level, 2 * i))));
    }
  }

  lemma {:induction false} TreePairsAreNodes(keccak: Keccak, level: seq<string>)
    requires PrintsNodes(keccak) && AreNodes(level)
    ensures ArePairsOfNodes(TreePairs(HashPair(keccak), level))
    decreases |level|
  {
    if |level| > 1 {
      ParentsAreNodes(keccak, level);
      TreePairsAreNodes(keccak, Parents(HashPair(keccak), level));
    }
  }

  lemma {:induction false} PathPairsAreNodes(keccak: Keccak, node: string, proof: seq<string>)
    requires PrintsNodes(keccak) && IsNode(node) && AreNodes(proof)
    ensures ArePairsOfNodes(PathPairs(HashPair(keccak), node, proof))
    decreases |proof|
  {
    if |proof| > 0 {
      PathPairsAreNodes(keccak, HashPair(keccak)(node, proof[0]), proof[1..]);
    }
  }

  lemma {:induction false} ProofNodes(keccak: Keccak, level: seq<string>, position: nat)
    requires PrintsNodes(keccak) && AreNodes(level) && position < |level|
    ensures AreNodes(Proof(HashPair(keccak), level, position))
    decreases |level|
  {
    if |level| > 1 {
      ParentsAreNodes(keccak, level);
      ProofNodes(keccak, Parents(HashPair(keccak), level), position / 2);
    }
  }

  // ---------------------------------------------------------------------------------------------
  // The documented rule: min(a, b) ++ max(a, b)
  // ---------------------------------------------------------------------------------------------

  /** The smaller of two texts of one length: where they first differ it has the smaller character. */
  ghost predicate ComesFirst(lo: string, hi: string) {
    exists k: nat :: k < |lo| && k < |hi| && lo[..k] == hi[..k] && lo[k] < hi[k]
  }

  /** The parent is the hash of the smaller node's digits followed by the larger one's. */
  ghost predicate HashesInOrder(keccak: Keccak, a: string, b: string, parent: string)
    requires |a| >= 2 && |b| >= 2
  {
    && (ComesFirst(a, b) ==> parent == keccak("0x" + a[2..] + b[2..]))
    && (ComesFirst(b, a) ==> parent == keccak("0x" + b[2..] + a[2..]))
    && (a == b ==> parent == keccak("0x" + a[2..] + a[2..]))
  }

  lemma {:induction false} BeforeIff(a: string, b: string)
    requires |a| == |b|
    ensures Before(a, b) <==> ComesFirst(a, b)
  {
    forall k | 0 < k <= |a| && k <= |b| && a[..k] == b[..k]
      ensures a[0] == b[0]
    {
      assert a[..k][0] == b[..k][0];
    }
    if |a| > 0 && a[0] == b[0] {
      BeforeIff(a[1..], b[1..]);
      if ComesFirst(a[1..], b[1..]) {
        var k: nat :| k < |a[1..]| && a[1..][..k] == b[1..][..k] && a[1..][k] < b[1..][k];
        assert a[..k + 1] == [a[0]] + a[1..][..k] && b[..k + 1] == [b[0]] + b[1..][..k];
        assert a[k + 1] < b[k + 1];
      }
      if ComesFirst(a, b) {
        var k: nat :| k < |a| && a[..k] == b[..k] && a[k] < b[k];
        assert a[1..][..k - 1] == a[..k][1..] && b[1..][..k - 1] == b[..k][1..];
        assert a[1..][k - 1] < b[1..][k - 1];
      }
    } else if |a| > 0 {
      if Before(a, b) {
        assert a[..0] == b[..0] && a[0] < b[0];
      }
    }
  }

  lemma PairIsInOrder(keccak: Keccak, a: string, b: string)
    requires IsNode(a) && IsNode(b)
    ensures HashesInOrder(keccak, a, b, HashPair(keccak)(a, b))
    ensures a == b || ComesFirst(a, b) || ComesFirst(b, a)
  {
    BeforeIff(a, b);
    BeforeIff(b, a);
    BeforeIsTotal(a, b);
  }

  /** Two nodes that hash to their parent in order have one parent. */
  lemma OrderFixesParent(keccak: Keccak, a: string, b: string, parent: string)
    requires IsNode(a) && IsNode(b) && HashesInOrder(keccak, a, b, parent)
    ensures parent == HashPair(keccak)(a, b)
  {
    PairIsInOrder(keccak, a, b);
  }

  /** Every parent hashes its two nodes in order, an odd last node with itself. */
  ghost predicate HashInOrder(keccak: Keccak, level: seq<string>, parents: seq<string>)
    requires AreNodes(level)
  {
    && |parents| == (|level| + 1) / 2
    && forall i | 0 <= i < |parents| ::
         HashesInOrder(keccak, level[2 * i], level[if 2 * i + 1 < |level| then 2 * i + 1 else 2 * i], parents[i])
  }

  lemma ParentsHashInOrder(keccak: Keccak, level: seq<string>)
    requires AreNodes(level)
    ensures HashInOrder(keccak, level, Parents(HashPair(keccak), level))
  {
    forall i | 0 <= i < (|level| + 1) / 2
      ensures i < |Parents(HashPair(keccak), level)|
      ensures HashesInOrder(keccak, level[2 * i], level[if 2 * i + 1 < |level| then 2 * i + 1 else 2 * i],
                            Parents(HashPair(keccak), level)[i])
    {
      ParentAt(HashPair(keccak), level, i);
      PairIsInOrder(keccak, level[2 * i], Right(level, 2 * i));
    }
  }

  // ---------------------------------------------------------------------------------------------
  // The exported functions
  // ---------------------------------------------------------------------------------------------

  function NormaliseLeaf(leaf: string): (node: string)
    requires IsHash(leaf)
    ensures node == Lower(leaf) && IsNode(node)
  {
    LowerHex(leaf, 64);
    LowerIdempotent(leaf);
    Lower(leaf)
  }

  function Normalise(leaves: seq<string>): (nodes: seq<string>)
    requires AreHashes(leaves)
    ensures |nodes| == |leaves|
    ensures forall i | 0 <= i < |leaves| :: nodes[i] == Lower(leaves[i])
    ensures AreNodes(nodes)
  {
    seq(|leaves|, i requires 0 <= i < |leaves| => NormaliseLeaf(leaves[i]))
  }

  /** What merkleRoot returns. */
  function RootOf(keccak: Keccak, leaves: seq<string>): Result<string, MerkleError> {
    if |leaves| == 0 then Ok(ZERO_HASH)
    else if AreHashes(leaves) then Ok(Root(HashPair(keccak), Normalise(leaves)))
    else Err(BadLeaf)
  }

  /** What merkleProof returns. */
  function ProofOf(keccak: Keccak, leaves: seq<string>, index: int): Result<seq<string>, MerkleError> {
    if index < 0 || index >= |leaves| then Err(BadIndex)
    else if AreHashes(leaves) then Ok(Proof(HashPair(keccak), Normalise(leaves), index))
    else Err(BadLeaf)
  }

  /** verifyMerkleProof. */
  predicate Verify(keccak: Keccak, leaf: string, proof: seq<string>, root: string) {
    IsHash(leaf) && IsHash(root) && AreHashes(proof) &&
    Climb(HashPair(keccak), NormaliseLeaf(leaf), Normalise(proof)) == Lower(root)
  }

  method ParentLevel(keccak: Keccak, level: seq<string>) returns (parents: seq<string>)
    ensures parents == Parents(HashPair(keccak), level)
    ensures AreNodes(level) ==> HashInOrder(keccak, level, parents)
  {
    hide HashInOrder, AreNodes, Payload, Before;
    if AreNodes(level) {
      ParentsHashInOrder(keccak, level);
    }
    ghost var all := Parents(HashPair(keccak), level);
    parents := [];
    var i := 0;
    while i < |level|
      invariant i % 2 == 0 && 0 <= i <= |level| + 1
      invariant parents == all[..i / 2]
    {
      parents := parents + [HashPair(keccak)(level[i], if i + 1 < |level| then level[i + 1] else level[i])];
      ParentAt(HashPair(keccak), level, i / 2);
      i := i + 2;
    }
  }

  method MerkleRoot(keccak: Keccak, leaves: seq<string>) returns (root: Result<string, MerkleError>)
    ensures root == RootOf(keccak, leaves)
  {
    if |leaves| == 0 {
      return Ok(ZERO_HASH);
    }
    if !AreHashes(leaves) {
      return Err(BadLeaf);
    }
    var level := Normalise(leaves);
    while |level| > 1
      invariant |level| > 0
      invariant Root(HashPair(keccak), level) == Root(HashPair(keccak), Normalise(leaves))
      decreases |level|
    {
      level := ParentLevel(keccak, level);
    }
    return Ok(level[0]);
  }

  lemma ProofStep(keccak: Keccak, proof: seq<string>, level: seq<string>, position: nat)
    requires |level| > 1 && position < |level|
    ensures proof + Proof(HashPair(keccak), level, position)
         == (proof + [Sibling(level, position)])
            + Proof(HashPair(keccak), Parents(HashPair(keccak), level), position / 2)
  {
  }

  method MerkleProof(keccak: Keccak, leaves: seq<string>, index: int)
    returns (result: Result<seq<string>, MerkleError>)
    ensures result == ProofOf(keccak, leaves, index)
  {
    if index < 0 || index >= |leaves| {
      return Err(BadIndex);
    }
    if !AreHashes(leaves) {
      return Err(BadLeaf);
    }
    var proof := CollectSiblings(keccak, Normalise(leaves), index);
    return Ok(proof);
  }

  /** The loop of merkleProof, from the leaf level up to the root. */
  method CollectSiblings(keccak: Keccak, leaves: seq<string>, index: nat) returns (proof: seq<string>)
    requires index < |leaves|
    ensures proof == Proof(HashPair(keccak), leaves, index)
  {
    proof := [];
    var level := leaves;
    var position := index;
    ghost var whole := Proof(HashPair(keccak), level, position);
    while |level| > 1
      invariant 0 <= position < |level|
      invariant whole == proof + Proof(HashPair(keccak), level, position)
      decreases |level|
    {
      ProofStep(keccak, proof, level, position);
      var sibling := if position % 2 == 0 then position + 1 else position - 1;
      proof := proof + [if sibling < |level| then level[sibling] else level[position]];
      level := ParentLevel(keccak, level);
      position := position / 2;
    }
  }

  /** What merkleRoot and merkleProof refuse, and the roots of no receipt and of one. */
  lemma RefusesIff(keccak: Keccak, leaves: seq<string>, index: int)
    ensures RootOf(keccak, leaves).Ok? <==> forall i | 0 <= i < |leaves| :: MatchesHex(leaves[i], 64)
    ensures ProofOf(keccak, leaves, index) == Err(BadIndex) <==> !(0 <= index < |leaves|)
    ensures ProofOf(keccak, leaves, index).Ok? <==> 0 <= index < |leaves| && RootOf(keccak, leaves).Ok?
    ensures |leaves| == 0 ==> RootOf(keccak, leaves) == Ok("0x" + seq(64, _ => '0'))
    ensures |leaves| == 1 && MatchesHex(leaves[0], 64) ==> RootOf(keccak, leaves) == Ok(Lower(leaves[0]))
  {
    forall i | 0 <= i < |leaves|
      ensures MatchesHex(leaves[i], 64) <==> IsHash(leaves[i])
    {
      MatchesHexIff(leaves[i], 64);
    }
    assert Zeros(64) == seq(64, _ => '0');
  }

  /** The root of two receipts: their lower-cased hashes, the smaller one first, whichever came first. */
  lemma RootOfTwo(keccak: Keccak, lo: string, hi: string)
    requires IsHash(lo) && IsHash(hi)
    requires ComesFirst(Lower(lo), Lower(hi)) || Lower(lo) == Lower(hi)
    ensures RootOf(keccak, [lo, hi]) == RootOf(keccak, [hi, lo])
         == Ok(keccak("0x" + Lower(lo)[2..] + Lower(hi)[2..]))
  {
    RootOfPair(keccak, lo, hi);
    RootOfPair(keccak, hi, lo);
    PairIsInOrder(keccak, NormaliseLeaf(lo), NormaliseLeaf(hi));
    PairIsInOrder(keccak, NormaliseLeaf(hi), NormaliseLeaf(lo));
  }

  lemma RootOfPair(keccak: Keccak, a: string, b: string)
    requires IsHash(a) && IsHash(b)
    ensures RootOf(keccak, [a, b]) == Ok(HashPair(keccak)(NormaliseLeaf(a), NormaliseLeaf(b)))
  {
    var pair, nodes := HashPair(keccak), [NormaliseLeaf(a), NormaliseLeaf(b)];
    assert AreHashes([a, b]) && Normalise([a, b]) == nodes;
    ParentAt(pair, nodes, 0);
    assert |Parents(pair, nodes)| == 1;
    assert Root(pair, nodes) == Root(pair, Parents(pair, nodes)) == Parents(pair, nodes)[0];
  }

  /** A walk from the leaf to the root that hashes each node with its sibling in order. */
  ghost predicate IsWalk(keccak: Keccak, path: seq<string>, leaf: string, siblings: seq<string>, root: string) {
    && AreNodes(path) && AreNodes(siblings)
    && |path| == |siblings| + 1 && path[0] == leaf && path[|siblings|] == root
    && forall i | 0 <= i < |siblings| :: HashesInOrder(keccak, path[i], siblings[i], path[i + 1])
  }

  lemma {:induction false} WalkIff(keccak: Keccak, leaf: string, siblings: seq<string>, root: string)
    requires PrintsNodes(keccak) && IsNode(leaf) && AreNodes(siblings)
    ensures Climb(HashPair(keccak), leaf, siblings) == root
            <==> exists path :: IsWalk(keccak, path, leaf, siblings, root)
    decreases |siblings|
  {
    if |siblings| == 0 {
      if leaf == root {
        assert IsWalk(keccak, [leaf], leaf, siblings, root);
      }
      return;
    }
    var next := HashPair(keccak)(leaf, siblings[0]);
    hide IsWalk, HashesInOrder, HashPair;
    WalkIff(keccak, next, siblings[1..], root);
    if path :| IsWalk(keccak, path, next, siblings[1..], root) {
      WalkLonger(keccak, path, leaf, siblings, root);
    }
    if path :| IsWalk(keccak, path, leaf, siblings, root) {
      WalkShorter(keccak, path, leaf, siblings, root);
    }
  }

  lemma WalkLonger(keccak: Keccak, path: seq<string>, leaf: string, siblings: seq<string>, root: string)
    requires PrintsNodes(keccak) && IsNode(leaf) && AreNodes(siblings) && |siblings| > 0
    requires IsWalk(keccak, path, HashPair(keccak)(leaf, siblings[0]), siblings[1..], root)
    ensures IsWalk(keccak, [leaf] + path, leaf, siblings, root)
  {
    hide HashesInOrder, HashPair;
    PairIsInOrder(keccak, leaf, siblings[0]);
  }

  lemma WalkShorter(keccak: Keccak, path: seq<string>, leaf: string, siblings: seq<string>, root: string)
    requires PrintsNodes(keccak) && IsWalk(keccak, path, leaf, siblings, root) && |siblings| > 0
    ensures IsWalk(keccak, path[1..], HashPair(keccak)(leaf, siblings[0]), siblings[1..], root)
  {
    hide HashesInOrder, HashPair;
    OrderFixesParent(keccak, leaf, siblings[0], path[1]);
  }

  /** What a payee checks by the documented rule is what verifyMerkleProof accepts. */
  lemma VerifyIff(keccak: Keccak, leaf: string, proof: seq<string>, root: string)
    requires PrintsNodes(keccak)
    ensures Verify(keccak, leaf, proof, root) <==>
              && IsHash(leaf) && IsHash(root) && AreHashes(proof)
              && exists path :: IsWalk(keccak, path, Lower(leaf), Normalise(proof), Lower(root))
  {
    if IsHash(leaf) && IsHash(root) && AreHashes(proof) {
      WalkIff(keccak, NormaliseLeaf(leaf), Normalise(proof), Lower(root));
    }
  }

  /** Every receipt of every batch proves its inclusion, with ceil(log2 n) siblings. */
  lemma Completeness(keccak: Keccak, leaves: seq<string>, index: nat)
    requires PrintsNodes(keccak)
    requires AreHashes(leaves) && index < |leaves|
    ensures RootOf(keccak, leaves).Ok? && ProofOf(keccak, leaves, index).Ok?
    ensures Verify(keccak, leaves[index], ProofOf(keccak, leaves, index).value, RootOf(keccak, leaves).value)
    ensures var m := |ProofOf(keccak, leaves, index).value|;
            |leaves| <= Pow2(m) && (m > 0 ==> Pow2(m - 1) < |leaves|)
  {
    NodeVerifies(keccak, Normalise(leaves), index);
    HeightIsCeilLog2(|leaves|);
    LowerIdempotent(leaves[index]);
  }

  /** A node over its level: the proof has the level's height, and climbs to the root. */
  lemma NodeVerifies(keccak: Keccak, nodes: seq<string>, j: nat)
    requires PrintsNodes(keccak) && AreNodes(nodes) && j < |nodes|
    ensures var proof := Proof(HashPair(keccak), nodes, j);
            |proof| == Height(|nodes|) && AreHashes(proof)
                && Verify(keccak, nodes[j], proof, Root(HashPair(keccak), nodes))
  {
    var proof := Proof(HashPair(keccak), nodes, j);
    HashPairIsSymmetric(keccak);
    ProofClimbsToRoot(HashPair(keccak), nodes, j);
    ProofNodes(keccak, nodes, j);
    RootIsNode(keccak, nodes);
    assert IsNode(nodes[j]) && AreHashes(proof);
    assert Normalise(proof) == proof && NormaliseLeaf(nodes[j]) == nodes[j];
  }

  lemma {:induction false} RootIsNode(keccak: Keccak, nodes: seq<string>)
    requires PrintsNodes(keccak) && AreNodes(nodes) && |nodes| > 0
    ensures IsNode(Root(HashPair(keccak), nodes))
    decreases |nodes|
  {
    if |nodes| > 1 {
      ParentsAreNodes(keccak, nodes);
      RootIsNode(keccak, Parents(HashPair(keccak), nodes));
    }
  }

  /** A verified proof of full height puts the leaf in the batch. */
  lemma Soundness(keccak: Keccak, leaves: seq<string>, leaf: string, proof: seq<string>)
    requires PrintsNodes(keccak)
    requires AreHashes(leaves) && |leaves| > 0
    requires Verify(keccak, leaf, proof, RootOf(keccak, leaves).value)
    requires |proof| == Height(|leaves|)
    requires CollisionFree(keccak, TreePairs(HashPair(keccak), Normalise(leaves)),
                           PathPairs(HashPair(keccak), NormaliseLeaf(leaf), Normalise(proof)))
    ensures exists i | 0 <= i < |leaves| :: Lower(leaves[i]) == Lower(leaf)
  {
    RootIsNode(keccak, Normalise(leaves));
    FullClimbStartsAtLeaf(keccak, Normalise(leaves), NormaliseLeaf(leaf), Normalise(proof));
    NormalisedMember(leaves, leaf);
  }

  lemma NormalisedMember(leaves: seq<string>, leaf: string)
    requires AreHashes(leaves) && IsHash(leaf) && NormaliseLeaf(leaf) in Normalise(leaves)
    ensures exists i | 0 <= i < |leaves| :: Lower(leaves[i]) == Lower(leaf)
  {
    var i :| 0 <= i < |leaves| && Normalise(leaves)[i] == NormaliseLeaf(leaf);
    assert Lower(leaves[i]) == Lower(leaf);
  }

  lemma FullClimbStartsAtLeaf(keccak: Keccak, nodes: seq<string>, node: string, path: seq<string>)
    requires PrintsNodes(keccak) && AreNodes(nodes) && |nodes| > 0 && IsNode(node) && AreNodes(path)
    requires Climb(HashPair(keccak), node, path) == Root(HashPair(keccak), nodes)
    requires |path| == Height(|nodes|)
    requires CollisionFree(keccak, TreePairs(HashPair(keccak), nodes), PathPairs(HashPair(keccak), node, path))
    ensures node in nodes
  {
    TreePairsAreNodes(keccak, nodes);
    PathPairsAreNodes(keccak, node, path);
    CollisionFreePairing(keccak, TreePairs(HashPair(keccak), nodes), PathPairs(HashPair(keccak), node, path));
    ClimbersAreNodes(HashPair(keccak), nodes, node, path);
  }

  /** Batches of equal height and equal root hold the same set of receipt hashes. */
  lemma RootBindsBatch(keccak: Keccak, a: seq<string>, b: seq<string>)
    requires PrintsNodes(keccak)
    requires AreHashes(a) && AreHashes(b) && |a| > 0 && |b| > 0
    requires Height(|a|) == Height(|b|) && RootOf(keccak, a) == RootOf(keccak, b)
    requires CollisionFree(keccak, TreePairs(HashPair(keccak), Normalise(a)),
                           TreePairs(HashPair(keccak), Normalise(b)))
    ensures (set x | x in Normalise(a)) == (set x | x in Normalise(b))
  {
    var na, nb := Normalise(a), Normalise(b);
    TreePairsAreNodes(keccak, na);
    TreePairsAreNodes(keccak, nb);
    CollisionFreePairing(keccak, TreePairs(HashPair(keccak), na), TreePairs(HashPair(keccak), nb));
    HashPairIsSymmetric(keccak);
    RootBindsLeaves(HashPair(keccak), na, nb);
  }

  /** Exactly what equal roots of equal height say: the trees agree up to swapping the children of nodes. */
  lemma EqualRootsIff(keccak: Keccak, a: seq<string>, b: seq<string>)
    requires PrintsNodes(keccak)
    requires AreHashes(a) && AreHashes(b) && |a| > 0 && |b| > 0 && Height(|a|) == Height(|b|)
    requires CollisionFree(keccak, TreePairs(HashPair(keccak), Normalise(a)),
                           TreePairs(HashPair(keccak), Normalise(b)))
    ensures RootOf(keccak, a) == RootOf(keccak, b)
            <==> MerkleBinding.SameUpToSwaps(MerkleBinding.TreeOf(Normalise(a)), MerkleBinding.TreeOf(Normalise(b)))
  {
    var na, nb := Normalise(a), Normalise(b);
    TreePairsAreNodes(keccak, na);
    TreePairsAreNodes(keccak, nb);
    CollisionFreePairing(keccak, TreePairs(HashPair(keccak), na), TreePairs(HashPair(keccak), nb));
    HashPairIsSymmetric(keccak);
    MerkleBinding.EqualRootsIff(HashPair(keccak), na, nb);
  }

  lemma {:induction false} LevelNodes(keccak: Keccak, nodes: seq<string>, h: nat)
    requires PrintsNodes(keccak) && AreNodes(nodes)
    ensures AreNodes(Level(HashPair(keccak), nodes, h))
    decreases h
  {
    if h > 0 {
      ParentsAreNodes(keccak, nodes);
      LevelNodes(keccak, Parents(HashPair(keccak), nodes), h - 1);
    }
  }

  /**
   Verification alone does not fix the height: every node of every level of every batch's tree is
   accepted as if it were a receipt, with a proof as much shorter as the node is above the leaves.
   */
  lemma EveryNodePassesAsLeaf(keccak: Keccak, leaves: seq<string>, h: nat, j: nat)
    requires PrintsNodes(keccak)
    requires AreHashes(leaves) && |leaves| > 0 && h <= Height(|leaves|)
    requires j < |Level(HashPair(keccak), Normalise(leaves), h)|
    ensures var level := Level(HashPair(keccak), Normalise(leaves), h);
            var proof := Proof(HashPair(keccak), level, j);
            |proof| == Height(|leaves|) - h && Verify(keccak, level[j], proof, RootOf(keccak, leaves).value)
  {
    var nodes := Normalise(leaves);
    var level := Level(HashPair(keccak), nodes, h);
    LevelNodes(keccak, nodes, h);
    LevelHasSameRoot(HashPair(keccak), nodes, h);
    NodeVerifies(keccak, level, j);
  }
}
