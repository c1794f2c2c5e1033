// The proof vectors of the binary Merkle tree's `prove` tests, derived from
// the general completeness lemma for trees built by pushes: for 1, 4, 5 and
// 7 leaves, every index's root and proof set, written with the hash
// constructors exactly as the tests build them from `leaf_sum` and
// `node_sum`.

module MerkleVectors {
  import opened Wrappers
  import opened BinaryMerkle

  /** A frame of height 0 holds one leaf. */
  lemma FrameLeaf(ds: seq<Bytes>, k: nat)
    requires k < |ds|
    ensures FrameRoot(ds, k, 0) == LeafSum(ds[k])
  {
    assert ds[k..k + 1][0] == ds[k];
  }

  /** A frame whose upper half holds a leaf is the node over its halves. */
  lemma FrameSplit(ds: seq<Bytes>, k: nat, h: nat)
    requires h > 0 && k + Pow2(h - 1) < |ds|
    ensures FrameRoot(ds, k, h) == NodeSum(FrameRoot(ds, k, h - 1), FrameRoot(ds, k + Pow2(h - 1), h - 1))
  {
    var half := Pow2(h - 1);
    assert Pow2(h) == half + half;
    var end := if k + Pow2(h) <= |ds| then k + Pow2(h) else |ds|;
    var s := ds[k..end];
    assert s[..half] == ds[k..k + half];
    assert s[half..] == ds[k + half..end];
  }

  /** A frame whose leaves all fit its lower half is that half. */
  lemma FrameLower(ds: seq<Bytes>, k: nat, h: nat)
    requires h > 0 && k < |ds| <= k + Pow2(h - 1)
    ensures FrameRoot(ds, k, h) == FrameRoot(ds, k, h - 1)
  {
    assert Pow2(h) == 2 * Pow2(h - 1);
  }

  /** The reference root is the frame root in the smallest frame. */
  lemma MerkleRootFrame(ds: seq<Bytes>)
    requires 0 < |ds|
    ensures MerkleRoot(ds) == FrameRoot(ds, 0, CeilLog2(|ds|))
  {
    CeilLog2Fits(|ds|);
    assert ds[0..|ds|] == ds;
  }

  lemma SmallHeights()
    ensures Pow2(0) == 1 && Pow2(1) == 2 && Pow2(2) == 4 && Pow2(3) == 8
    ensures CeilLog2(1) == 0 && CeilLog2(2) == 1
    ensures CeilLog2(4) == 2 && CeilLog2(5) == 3 && CeilLog2(6) == 3 && CeilLog2(7) == 3 && CeilLog2(8) == 3
  {
    assert CeilLog2(3) == 2;
  }

  /** The frames over the first four leaves of a tree of at least four. */
  lemma QuadFrames(ds: seq<Bytes>)
    requires |ds| >= 4
    ensures FrameRoot(ds, 0, 0) == LeafSum(ds[0]) && FrameRoot(ds, 1, 0) == LeafSum(ds[1])
    ensures FrameRoot(ds, 2, 0) == LeafSum(ds[2]) && FrameRoot(ds, 3, 0) == LeafSum(ds[3])
    ensures FrameRoot(ds, 0, 1) == NodeSum(LeafSum(ds[0]), LeafSum(ds[1]))
    ensures FrameRoot(ds, 2, 1) == NodeSum(LeafSum(ds[2]), LeafSum(ds[3]))
    ensures FrameRoot(ds, 0, 2) == NodeSum(FrameRoot(ds, 0, 1), FrameRoot(ds, 2, 1))
  {
    SmallHeights();
    FrameLeaf(ds, 0);
    FrameLeaf(ds, 1);
    FrameLeaf(ds, 2);
    FrameLeaf(ds, 3);
    FrameSplit(ds, 0, 1);
    FrameSplit(ds, 2, 1);
    FrameSplit(ds, 0, 2);
  }

  lemma ReverseTwo<T>(a: T, b: T)
    ensures Reverse([a, b]) == [b, a]
  {
    assert [a, b][1..] == [b];
  }

  lemma ReverseThree<T>(a: T, b: T, c: T)
    ensures Reverse([a, b, c]) == [c, b, a]
  {
    assert [a, b, c][1..] == [b, c];
    assert [b, c][1..] == [c];
  }

  // One leaf

  /** `prove(0)` on one pushed leaf returns `leaf_0` and an empty proof set. */
  lemma ProveOneLeaf(storage: map<nat, Node>, ds: seq<Bytes>)
    requires |ds| == 1
    ensures var t := PushAll(TreeState(storage, [], 0), ds);
      ProvableAt(t, 0) && ProveSpec(t, 0) == Ok((LeafSum(ds[0]), []))
  {
    PushAllProve(storage, ds, 0);
    SmallHeights();
    FrameLeaf(ds, 0);
    MerkleRootFrame(ds);
    assert SideRoots(ds, 0, 1, 0) == [];
  }

  // Four leaves

  /** The side roots of each leaf of four, from the top down. */
  lemma FourLeafSides(ds: seq<Bytes>)
    requires |ds| == 4
    ensures SideRoots(ds, 0, 3, 0) == [FrameRoot(ds, 2, 1), FrameRoot(ds, 1, 0)]
    ensures SideRoots(ds, 0, 3, 1) == [FrameRoot(ds, 2, 1), FrameRoot(ds, 0, 0)]
    ensures SideRoots(ds, 0, 3, 2) == [FrameRoot(ds, 0, 1), FrameRoot(ds, 3, 0)]
    ensures SideRoots(ds, 0, 3, 3) == [FrameRoot(ds, 0, 1), FrameRoot(ds, 2, 0)]
  {
    SmallHeights();
  }

  /** The reference root of four leaves and, from the leaf up, the side
      roots of leaf `i`, as the 4-leaf test spells them out. */
  lemma FourLeafVector(ds: seq<Bytes>, i: nat)
    requires |ds| == 4 && i < 4
    ensures CeilLog2(|ds| + 1) == 3 && i < Pow2(3)
    ensures var node1 := NodeSum(LeafSum(ds[0]), LeafSum(ds[1]));
      var node5 := NodeSum(LeafSum(ds[2]), LeafSum(ds[3]));
      MerkleRoot(ds) == NodeSum(node1, node5) &&
      (i == 0 ==> Reverse(SideRoots(ds, 0, 3, i)) == [LeafSum(ds[1]), node5]) &&
      (i == 1 ==> Reverse(SideRoots(ds, 0, 3, i)) == [LeafSum(ds[0]), node5]) &&
      (i == 2 ==> Reverse(SideRoots(ds, 0, 3, i)) == [LeafSum(ds[3]), node1]) &&
      (i == 3 ==> Reverse(SideRoots(ds, 0, 3, i)) == [LeafSum(ds[2]), node1])
  {
    QuadFrames(ds);
    MerkleRootFrame(ds);
    FourLeafSides(ds);
    SmallHeights();
    if i == 0 {
      ReverseTwo(FrameRoot(ds, 2, 1), FrameRoot(ds, 1, 0));
    } else if i == 1 {
      ReverseTwo(FrameRoot(ds, 2, 1), FrameRoot(ds, 0, 0));
    } else if i == 2 {
      ReverseTwo(FrameRoot(ds, 0, 1), FrameRoot(ds, 3, 0));
    } else {
      ReverseTwo(FrameRoot(ds, 0, 1), FrameRoot(ds, 2, 0));
    }
  }

  /** `prove(i)` on four pushed leaves returns `node_3` and the proof set the
      4-leaf test expects for index `i`. */
  lemma ProveFourLeaves(storage: map<nat, Node>, ds: seq<Bytes>, i: nat)
    requires |ds| == 4 && i < 4
    ensures var t := PushAll(TreeState(storage, [], 0), ds);
      var node1 := NodeSum(LeafSum(ds[0]), LeafSum(ds[1]));
      var node5 := NodeSum(LeafSum(ds[2]), LeafSum(ds[3]));
      ProvableAt(t, i) &&
      ProveSpec(t, i) == Ok((NodeSum(node1, node5), [[LeafSum(ds[1]), node5],
                                                     [LeafSum(ds[0]), node5],
                                                     [LeafSum(ds[3]), node1],
                                                     [LeafSum(ds[2]), node1]][i]))
  {
    PushAllProve(storage, ds, i);
    FourLeafVector(ds, i);
  }

  // Five leaves

  /** The side roots of each leaf of five, from the top down. */
  lemma FiveLeafSides(ds: seq<Bytes>)
    requires |ds| == 5
    ensures SideRoots(ds, 0, 3, 0) == [FrameRoot(ds, 4, 2), FrameRoot(ds, 2, 1), FrameRoot(ds, 1, 0)]
    ensures SideRoots(ds, 0, 3, 1) == [FrameRoot(ds, 4, 2), FrameRoot(ds, 2, 1), FrameRoot(ds, 0, 0)]
    ensures SideRoots(ds, 0, 3, 2) == [FrameRoot(ds, 4, 2), FrameRoot(ds, 0, 1), FrameRoot(ds, 3, 0)]
    ensures SideRoots(ds, 0, 3, 3) == [FrameRoot(ds, 4, 2), FrameRoot(ds, 0, 1), FrameRoot(ds, 2, 0)]
    ensures SideRoots(ds, 0, 3, 4) == [FrameRoot(ds, 0, 2)]
  {
    SmallHeights();
  }

  /** The reference root of five leaves and, from the leaf up, the side
      roots of leaf `i`, as the 5-leaf test spells them out. */
  lemma FiveLeafVector(ds: seq<Bytes>, i: nat)
    requires |ds| == 5 && i < 5
    ensures CeilLog2(|ds| + 1) == 3 && i < Pow2(3)
    ensures var node1 := NodeSum(LeafSum(ds[0]), LeafSum(ds[1]));
      var node5 := NodeSum(LeafSum(ds[2]), LeafSum(ds[3]));
      var node3 := NodeSum(node1, node5);
      MerkleRoot(ds) == NodeSum(node3, LeafSum(ds[4])) &&
      (i == 0 ==> Reverse(SideRoots(ds, 0, 3, i)) == [LeafSum(ds[1]), node5, LeafSum(ds[4])]) &&
      (i == 1 ==> Reverse(SideRoots(ds, 0, 3, i)) == [LeafSum(ds[0]), node5, LeafSum(ds[4])]) &&
      (i == 2 ==> Reverse(SideRoots(ds, 0, 3, i)) == [LeafSum(ds[3]), node1, LeafSum(ds[4])]) &&
      (i == 3 ==> Reverse(SideRoots(ds, 0, 3, i)) == [LeafSum(ds[2]), node1, LeafSum(ds[4])]) &&
      (i == 4 ==> Reverse(SideRoots(ds, 0, 3, i)) == [node3])
  {
    QuadFrames(ds);
    FrameLeaf(ds, 4);
    FrameLower(ds, 4, 1);
    FrameLower(ds, 4, 2);
    FrameSplit(ds, 0, 3);
    MerkleRootFrame(ds);
    FiveLeafSides(ds);
    SmallHeights();
    if i == 0 {
      ReverseThree(FrameRoot(ds, 4, 2), FrameRoot(ds, 2, 1), FrameRoot(ds, 1, 0));
    } else if i == 1 {
      ReverseThree(FrameRoot(ds, 4, 2), FrameRoot(ds, 2, 1), FrameRoot(ds, 0, 0));
    } else if i == 2 {
      ReverseThree(FrameRoot(ds, 4, 2), FrameRoot(ds, 0, 1), FrameRoot(ds, 3, 0));
    } else if i == 3 {
      ReverseThree(FrameRoot(ds, 4, 2), FrameRoot(ds, 0, 1), FrameRoot(ds, 2, 0));
    } else {
      assert Reverse([FrameRoot(ds, 0, 2)]) == [FrameRoot(ds, 0, 2)];
    }
  }

  /** `prove(i)` on five pushed leaves returns `node_7` and the proof set the
      5-leaf test expects for index `i`. */
  lemma ProveFiveLeaves(storage: map<nat, Node>, ds: seq<Bytes>, i: nat)
    requires |ds| == 5 && i < 5
    ensures var t := PushAll(TreeState(storage, [], 0), ds);
      var node1 := NodeSum(LeafSum(ds[0]), LeafSum(ds[1]));
      var node5 := NodeSum(LeafSum(ds[2]), LeafSum(ds[3]));
      var node3 := NodeSum(node1, node5);
      var node7 := NodeSum(node3, LeafSum(ds[4]));
      ProvableAt(t, i) &&
      ProveSpec(t, i) == Ok((node7, [[LeafSum(ds[1]), node5, LeafSum(ds[4])],
                                    [LeafSum(ds[0]), node5, LeafSum(ds[4])],
                                    [LeafSum(ds[3]), node1, LeafSum(ds[4])],
                                    [LeafSum(ds[2]), node1, LeafSum(ds[4])],
                                    [node3]][i]))
  {
    PushAllProve(storage, ds, i);
    FiveLeafVector(ds, i);
  }
  // Seven leaves

  /** The side roots of the first four leaves of seven, from the top down. */
  lemma SevenLeafSidesLower(ds: seq<Bytes>)
    requires |ds| == 7
    ensures SideRoots(ds, 0, 3, 0) == [FrameRoot(ds, 4, 2), FrameRoot(ds, 2, 1), FrameRoot(ds, 1, 0)]
    ensures SideRoots(ds, 0, 3, 1) == [FrameRoot(ds, 4, 2), FrameRoot(ds, 2, 1), FrameRoot(ds, 0, 0)]
    ensures SideRoots(ds, 0, 3, 2) == [FrameRoot(ds, 4, 2), FrameRoot(ds, 0, 1), FrameRoot(ds, 3, 0)]
    ensures SideRoots(ds, 0, 3, 3) == [FrameRoot(ds, 4, 2), FrameRoot(ds, 0, 1), FrameRoot(ds, 2, 0)]
  {
    SmallHeights();
  }

  /** The side roots of the last three leaves of seven, from the top down. */
  lemma SevenLeafSidesUpper(ds: seq<Bytes>)
    requires |ds| == 7
    ensures SideRoots(ds, 0, 3, 4) == [FrameRoot(ds, 0, 2), FrameRoot(ds, 6, 1), FrameRoot(ds, 5, 0)]
    ensures SideRoots(ds, 0, 3, 5) == [FrameRoot(ds, 0, 2), FrameRoot(ds, 6, 1), FrameRoot(ds, 4, 0)]
    ensures SideRoots(ds, 0, 3, 6) == [FrameRoot(ds, 0, 2), FrameRoot(ds, 4, 1)]
  {
    SmallHeights();
  }

  /** The frames over the last three leaves of seven. */
  lemma SevenLeafFrames(ds: seq<Bytes>)
    requires |ds| == 7
    ensures FrameRoot(ds, 4, 0) == LeafSum(ds[4]) && FrameRoot(ds, 5, 0) == LeafSum(ds[5])
    ensures FrameRoot(ds, 4, 1) == NodeSum(LeafSum(ds[4]), LeafSum(ds[5]))
    ensures FrameRoot(ds, 6, 1) == LeafSum(ds[6])
    ensures FrameRoot(ds, 4, 2) == NodeSum(FrameRoot(ds, 4, 1), LeafSum(ds[6]))
  {
    SmallHeights();
    FrameLeaf(ds, 4);
    FrameLeaf(ds, 5);
    FrameLeaf(ds, 6);
    FrameSplit(ds, 4, 1);
    FrameLower(ds, 6, 1);
    FrameSplit(ds, 4, 2);
  }

  /** The reference root of seven leaves and, from the leaf up, the side
      roots of leaf `i`, as the 7-leaf test spells them out. */
  lemma SevenLeafVector(ds: seq<Bytes>, i: nat)
    requires |ds| == 7 && i < 7
    ensures CeilLog2(|ds| + 1) == 3 && i < Pow2(3)
    ensures var node1 := NodeSum(LeafSum(ds[0]), LeafSum(ds[1]));
      var node5 := NodeSum(LeafSum(ds[2]), LeafSum(ds[3]));
      var node3 := NodeSum(node1, node5);
      var node9 := NodeSum(LeafSum(ds[4]), LeafSum(ds[5]));
      var node11 := NodeSum(node9, LeafSum(ds[6]));
      MerkleRoot(ds) == NodeSum(node3, node11) &&
      (i == 0 ==> Reverse(SideRoots(ds, 0, 3, i)) == [LeafSum(ds[1]), node5, node11]) &&
      (i == 1 ==> Reverse(SideRoots(ds, 0, 3, i)) == [LeafSum(ds[0]), node5, node11]) &&
      (i == 2 ==> Reverse(SideRoots(ds, 0, 3, i)) == [LeafSum(ds[3]), node1, node11]) &&
      (i == 3 ==> Reverse(SideRoots(ds, 0, 3, i)) == [LeafSum(ds[2]), node1, node11]) &&
      (i == 4 ==> Reverse(SideRoots(ds, 0, 3, i)) == [LeafSum(ds[5]), LeafSum(ds[6]), node3]) &&
      (i == 5 ==> Reverse(SideRoots(ds, 0, 3, i)) == [LeafSum(ds[4]), LeafSum(ds[6]), node3]) &&
      (i == 6 ==> Reverse(SideRoots(ds, 0, 3, i)) == [node9, node3])
  {
    QuadFrames(ds);
    SevenLeafFrames(ds);
    FrameSplit(ds, 0, 3);
    MerkleRootFrame(ds);
    SmallHeights();
    if i < 4 {
      SevenLeafSidesLower(ds);
      if i == 0 {
        ReverseThree(FrameRoot(ds, 4, 2), FrameRoot(ds, 2, 1), FrameRoot(ds, 1, 0));
      } else if i == 1 {
        ReverseThree(FrameRoot(ds, 4, 2), FrameRoot(ds, 2, 1), FrameRoot(ds, 0, 0));
      } else if i == 2 {
        ReverseThree(FrameRoot(ds, 4, 2), FrameRoot(ds, 0, 1), FrameRoot(ds, 3, 0));
      } else {
        ReverseThree(FrameRoot(ds, 4, 2), FrameRoot(ds, 0, 1), FrameRoot(ds, 2, 0));
      }
    } else {
      SevenLeafSidesUpper(ds);
      if i == 4 {
        ReverseThree(FrameRoot(ds, 0, 2), FrameRoot(ds, 6, 1), FrameRoot(ds, 5, 0));
      } else if i == 5 {
        ReverseThree(FrameRoot(ds, 0, 2), FrameRoot(ds, 6, 1), FrameRoot(ds, 4, 0));
      } else {
        ReverseTwo(FrameRoot(ds, 0, 2), FrameRoot(ds, 4, 1));
      }
    }
  }

  /** `prove(i)` on seven pushed leaves returns `node_7` and the proof set
      the 7-leaf test expects for index `i`. */
  lemma ProveSevenLeaves(storage: map<nat, Node>, ds: seq<Bytes>, i: nat)
    requires |ds| == 7 && i < 7
    ensures var t := PushAll(TreeState(storage, [], 0), ds);
      var node1 := NodeSum(LeafSum(ds[0]), LeafSum(ds[1]));
      var node5 := NodeSum(LeafSum(ds[2]), LeafSum(ds[3]));
      var node3 := NodeSum(node1, node5);
      var node9 := NodeSum(LeafSum(ds[4]), LeafSum(ds[5]));
      var node11 := NodeSum(node9, LeafSum(ds[6]));
      ProvableAt(t, i) &&
      ProveSpec(t, i) == Ok((NodeSum(node3, node11), [[LeafSum(ds[1]), node5, node11],
                                                      [LeafSum(ds[0]), node5, node11],
                                                      [LeafSum(ds[3]), node1, node11],
                                                      [LeafSum(ds[2]), node1, node11],
                                                      [LeafSum(ds[5]), LeafSum(ds[6]), node3],
                                                      [LeafSum(ds[4]), LeafSum(ds[6]), node3],
                                                      [node9, node3]][i]))
  {
    PushAllProve(storage, ds, i);
    SevenLeafVector(ds, i);
  }
}
