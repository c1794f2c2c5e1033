/** The binary Merkle tree of fuel-merkle, kept as a Merkle Mountain Range:
    a stack of peaks (heads of balanced subtrees) that merges equal heights
    as leaves are pushed, a persistent node storage keyed by in-order index,
    and the root, proof and load operations built on top of them.

    Hashes are free terms: `LeafSum`, `NodeSum` and `EmptySum` stand for the
    SHA-256 based `leaf_sum`, `node_sum` and `empty_sum`, and two hashes are
    equal exactly when they were built from the same leaves in the same shape. */
module BinaryMerkle {
  import opened Wrappers

  const U64_MAX: nat := 0xFFFF_FFFF_FFFF_FFFF
  /** 2^63. Leaf `i` sits at in-order index `2 * i`, which fits a u64 only for `i < MAX_LEAVES`. */
  const MAX_LEAVES: nat := 0x8000_0000_0000_0000
  /** Height of a balanced subtree that holds `MAX_LEAVES` leaves. */
  const TOP_HEIGHT: nat := 63

  type Bytes = seq<bv8>

  datatype Hash = EmptySum | LeafSum(data: Bytes) | NodeSum(left: Hash, right: Hash)

  /** A tree node as the stack and the storage hold it: its height, its
      in-order index (the storage key) and its hash. */
  datatype Node = Node(height: nat, key: nat, hash: Hash)

  /** `StorageError` is absent: the storage is an in-memory map that cannot fail. */
  datatype MerkleTreeError = InvalidProofIndex(index: nat) | LoadError(key: nat) | TooLarge

  // ---------------------------------------------------------------------------
  // Position arithmetic
  // ---------------------------------------------------------------------------

  function Pow2(h: nat): (r: nat)
    ensures r >= 1
  {
    if h == 0 then 1 else 2 * Pow2(h - 1)
  }

  lemma {:induction false} Pow2Monotone(a: nat, b: nat)
    requires a <= b
    ensures Pow2(a) <= Pow2(b)
    decreases b - a
  {
    if a < b {
      Pow2Monotone(a, b - 1);
    }
  }

  lemma {:induction false} Pow2Add(a: nat, b: nat)
    ensures Pow2(a + b) == Pow2(a) * Pow2(b)
    decreases b
  {
    if b > 0 {
      Pow2Add(a, b - 1);
    }
  }

  lemma Pow2At63()
    ensures Pow2(TOP_HEIGHT) == MAX_LEAVES
  {
    assert Pow2(3) == 8;
    Pow2Add(3, 3);
    assert Pow2(6) == 64;
    Pow2Add(6, 6);
    assert Pow2(12) == 4096;
    Pow2Add(12, 12);
    assert Pow2(24) == 0x100_0000;
    Pow2Add(24, 24);
    assert Pow2(48) == 0x1_0000_0000_0000;
    Pow2Add(48, 12);
    assert Pow2(60) == 0x1000_0000_0000_0000;
    Pow2Add(60, 3);
    assert Pow2(63) == 0x8000_0000_0000_0000;
  }

  /** In-order index of the subtree of height `h` whose leftmost leaf is `first`:
      leaf `i` is at `2 * i`, the node over leaves 0..1 at 1, over 0..3 at 3. */
  function InOrderIndex(first: nat, h: nat): nat
  {
    2 * first + Pow2(h) - 1
  }

  /** Exponent of u64 `next_power_of_two`: the least `e` with `x <= 2^e`. */
  function CeilLog2(x: nat): nat
  {
    if x <= 1 then 0 else 1 + CeilLog2((x + 1) / 2)
  }

  lemma {:induction false} CeilLog2Bounds(x: nat)
    requires x >= 1
    ensures x <= Pow2(CeilLog2(x))
    ensures CeilLog2(x) > 0 ==> Pow2(CeilLog2(x) - 1) < x
    ensures CeilLog2(x) > 0 <==> x >= 2
  {
    if x > 1 {
      CeilLog2Bounds((x + 1) / 2);
    }
  }

  /** `CeilLog2` is pinned down by its bounds. */
  lemma CeilLog2Exact(x: nat, e: nat)
    requires x >= 1 && x <= Pow2(e)
    requires e > 0 ==> Pow2(e - 1) < x
    ensures CeilLog2(x) == e
  {
    CeilLog2Bounds(x);
    var c := CeilLog2(x);
    if c < e {
      Pow2Monotone(c, e - 1);
    } else if c > e {
      Pow2Monotone(e, c - 1);
    }
  }

  lemma CeilLog2Fits(x: nat)
    ensures x <= Pow2(CeilLog2(x))
  {
    if x >= 1 {
      CeilLog2Bounds(x);
    }
  }

  /** `CeilLog2(x)` is the least exponent whose power holds `x`. */
  lemma {:induction false} CeilLog2Least(x: nat, e: nat)
    requires x <= Pow2(e)
    ensures CeilLog2(x) <= e
    decreases x
  {
    if x > 1 {
      assert e > 0;
      CeilLog2Least((x + 1) / 2, e - 1);
    }
  }

  /** The exponent of a power of two. */
  lemma CeilLog2Pow2(e: nat)
    ensures CeilLog2(Pow2(e)) == e
  {
    if e > 0 {
      Pow2Monotone(e - 1, e);
      assert Pow2(e) == 2 * Pow2(e - 1);
    }
    CeilLog2Exact(Pow2(e), e);
  }

  /** u64 `next_power_of_two`, over unbounded integers: the smallest power of
      two at or above `x`. */
  function NextPowerOfTwo(x: nat): (r: nat)
    requires x >= 1
    ensures x <= r < 2 * x
    ensures exists e: nat :: r == Pow2(e)
  {
    CeilLog2Bounds(x);
    Pow2(CeilLog2(x))
  }

  /** No power of two at or above `x` is below `next_power_of_two(x)`. */
  lemma NextPowerOfTwoLeast(x: nat, e: nat)
    requires x >= 1 && x <= Pow2(e)
    ensures NextPowerOfTwo(x) <= Pow2(e)
  {
    CeilLog2Least(x, e);
    Pow2Monotone(CeilLog2(x), e);
  }

  /** `root_position`: the in-order index of the root of a tree that has room
      for `leavesCount + 1` leaves, or `None` when `leavesCount + 1` overflows.
      The root's height, the exponent of `r + 1`, is that of the tree. */
  function RootPosition(leavesCount: nat): (r: Option<nat>)
    ensures r.Some? <==> leavesCount < U64_MAX
    ensures r.Some? ==> r.value == InOrderIndex(0, CeilLog2(leavesCount + 1))
    ensures r.Some? ==> CeilLog2(r.value + 1) == CeilLog2(leavesCount + 1)
  {
    if leavesCount + 1 > U64_MAX then None
    else
      CeilLog2Pow2(CeilLog2(leavesCount + 1));
      Some(NextPowerOfTwo(leavesCount + 1) - 1)
  }

  /** In-order index of the node that stands for the side subtree covering
      leaves `first .. first + 2^h` when only `m` leaves exist: a subtree whose
      right half is empty is its left half. */
  function Collapse(first: nat, h: nat, m: nat): nat
    requires first < m
  {
    if h == 0 || first + Pow2(h - 1) < m then InOrderIndex(first, h)
    else Collapse(first, h - 1, m)
  }

  /** Side positions met on the way from the subtree (first, h) down to leaf
      `j`, in a tree of `m` leaves, from the top down; the subtree itself is not
      included. A level whose right half lies wholly past the last leaf has no
      side node. */
  function Sides(first: nat, h: nat, j: nat, m: nat): seq<nat>
    requires first <= j < first + Pow2(h) && j < m
    decreases h
  {
    if h == 0 then []
    else
      var mid := first + Pow2(h - 1);
      if m <= mid then Sides(first, h - 1, j, m)
      else if j < mid then [Collapse(mid, h - 1, m)] + Sides(first, h - 1, j, m)
      else [Collapse(first, h - 1, m)] + Sides(mid, h - 1, j, m)
  }

  /** The side positions of `root.path(leaf, m)` for the root of height `h`:
      the root comes first, paired with itself, then `Sides`. */
  function PathSidePositions(h: nat, leaf: nat, m: nat): (r: seq<nat>)
    requires leaf < Pow2(h) && leaf < m
    ensures |r| >= 1 && r[0] == InOrderIndex(0, h)
  {
    [InOrderIndex(0, h)] + Sides(0, h, leaf, m)
  }

  /** `peak_positions`: the side positions of the path from the root to leaf
      `n` in a tree of `n + 1` leaves, without the root. */
  function PeakPositions(n: nat): Option<seq<nat>>
  {
    if 2 * n > U64_MAX then None             // Position::from_leaf_index(n)
    else
      match RootPosition(n)
      case None => None
      case Some(root) =>
        var h := CeilLog2(root + 1);
        CeilLog2Bounds(n + 1);
        Some(PathSidePositions(h, n, n + 1)[1..])
  }

  // ---------------------------------------------------------------------------
  // Leaves, balanced subtrees and peaks
  // ---------------------------------------------------------------------------

  /** Hash of the balanced subtree of height `h` over leaves `first .. first + 2^h`. */
  function SubtreeHash(leaves: seq<Bytes>, first: nat, h: nat): Hash
    requires first + Pow2(h) <= |leaves|
    decreases h
  {
    if h == 0 then LeafSum(leaves[first])
    else NodeSum(SubtreeHash(leaves, first, h - 1), SubtreeHash(leaves, first + Pow2(h - 1), h - 1))
  }

  function SubtreeNode(leaves: seq<Bytes>, first: nat, h: nat): Node
    requires first + Pow2(h) <= |leaves|
  {
    Node(h, InOrderIndex(first, h), SubtreeHash(leaves, first, h))
  }

  /** The peaks of the `c` leaves that start at `first` inside a balanced
      subtree of height `h`, left to right: the binary decomposition of `c`. */
  function PeakNodes(leaves: seq<Bytes>, first: nat, c: nat, h: nat): (r: seq<Node>)
    requires first + c <= |leaves| && c <= Pow2(h)
    decreases h
  {
    if c == 0 then []
    else if c == Pow2(h) then [SubtreeNode(leaves, first, h)]
    else if c >= Pow2(h - 1) then
      [SubtreeNode(leaves, first, h - 1)] + PeakNodes(leaves, first + Pow2(h - 1), c - Pow2(h - 1), h - 1)
    else PeakNodes(leaves, first, c, h - 1)
  }

  /** The peak stack of a tree holding `leaves`. */
  function Peaks(leaves: seq<Bytes>): seq<Node>
  {
    CeilLog2Fits(|leaves|);
    PeakNodes(leaves, 0, |leaves|, CeilLog2(|leaves|))
  }

  function Keys(s: seq<Node>): (r: seq<nat>)
    ensures |r| == |s|
  {
    if s == [] then [] else [s[0].key] + Keys(s[1..])
  }

  lemma {:induction false} KeysIndex(s: seq<Node>)
    ensures forall i :: 0 <= i < |s| ==> Keys(s)[i] == s[i].key
    decreases |s|
  {
    if s != [] {
      KeysIndex(s[1..]);
      assert forall i :: 1 <= i < |s| ==> Keys(s)[i] == Keys(s[1..])[i - 1];
    }
  }

  predicate Descending(s: seq<Node>)
  {
    forall i, j :: 0 <= i < j < |s| ==> s[i].height > s[j].height
  }

  lemma {:induction false} SubtreeHashPrefix(leaves: seq<Bytes>, more: seq<Bytes>, first: nat, h: nat)
    requires first + Pow2(h) <= |leaves| <= |more| && leaves == more[..|leaves|]
    ensures SubtreeHash(leaves, first, h) == SubtreeHash(more, first, h)
    decreases h
  {
    if h == 0 {
      assert leaves[first] == more[first];
    } else {
      SubtreeHashPrefix(leaves, more, first, h - 1);
      SubtreeHashPrefix(leaves, more, first + Pow2(h - 1), h - 1);
    }
  }

  lemma {:induction false} PeakNodesPrefix(leaves: seq<Bytes>, more: seq<Bytes>, first: nat, c: nat, h: nat)
    requires first + c <= |leaves| <= |more| && leaves == more[..|leaves|] && c <= Pow2(h)
    ensures PeakNodes(leaves, first, c, h) == PeakNodes(more, first, c, h)
    decreases h
  {
    if c == 0 {
    } else if c == Pow2(h) {
      SubtreeHashPrefix(leaves, more, first, h);
    } else if c >= Pow2(h - 1) {
      SubtreeHashPrefix(leaves, more, first, h - 1);
      PeakNodesPrefix(leaves, more, first + Pow2(h - 1), c - Pow2(h - 1), h - 1);
    } else {
      PeakNodesPrefix(leaves, more, first, c, h - 1);
    }
  }

  /** A decomposition that fits in half the subtree is the decomposition one level down. */
  lemma PeakNodesLower(leaves: seq<Bytes>, first: nat, c: nat, h: nat)
    requires h > 0 && c <= Pow2(h - 1) && first + c <= |leaves|
    ensures PeakNodes(leaves, first, c, h) == PeakNodes(leaves, first, c, h - 1)
  {
    if c == Pow2(h - 1) && c > 0 {
      assert PeakNodes(leaves, first + Pow2(h - 1), 0, h - 1) == [];
    }
  }

  /** The decomposition does not depend on the height of the enclosing subtree. */
  lemma {:induction false} PeakNodesLift(leaves: seq<Bytes>, first: nat, c: nat, h: nat, h': nat)
    requires h <= h' && c <= Pow2(h) && first + c <= |leaves|
    ensures c <= Pow2(h')
    ensures PeakNodes(leaves, first, c, h') == PeakNodes(leaves, first, c, h)
    decreases h' - h
  {
    Pow2Monotone(h, h');
    if h < h' {
      Pow2Monotone(h, h' - 1);
      PeakNodesLower(leaves, first, c, h');
      PeakNodesLift(leaves, first, c, h, h' - 1);
    }
  }

  /** Any two enclosing heights give the same decomposition. */
  lemma PeakNodesAnyHeight(leaves: seq<Bytes>, first: nat, c: nat, h: nat, h': nat)
    requires c <= Pow2(h) && c <= Pow2(h') && first + c <= |leaves|
    ensures PeakNodes(leaves, first, c, h) == PeakNodes(leaves, first, c, h')
  {
    if h <= h' {
      PeakNodesLift(leaves, first, c, h, h');
    } else {
      PeakNodesLift(leaves, first, c, h', h);
    }
  }

  /** Peak heights strictly descend and stay at or below the enclosing height. */
  lemma {:induction false} PeakNodesShape(leaves: seq<Bytes>, first: nat, c: nat, h: nat)
    requires first + c <= |leaves| && c <= Pow2(h)
    ensures Descending(PeakNodes(leaves, first, c, h))
    ensures (PeakNodes(leaves, first, c, h) == []) == (c == 0)
    ensures forall i :: 0 <= i < |PeakNodes(leaves, first, c, h)| ==>
      PeakNodes(leaves, first, c, h)[i].height <= h &&
      (c < Pow2(h) ==> PeakNodes(leaves, first, c, h)[i].height < h)
    decreases h
  {
    if c == 0 || c == Pow2(h) {
    } else if c >= Pow2(h - 1) {
      PeakNodesShape(leaves, first + Pow2(h - 1), c - Pow2(h - 1), h - 1);
    } else {
      PeakNodesShape(leaves, first, c, h - 1);
    }
  }

  // ---------------------------------------------------------------------------
  // The node stack: pushing merges equal heights
  // ---------------------------------------------------------------------------

  /** The node created over two equal-height neighbours; its key is the
      parent position of the left one (`key + 2^height` for a left child). */
  function Merged(left: Node, right: Node): Node
  {
    Node(left.height + 1, left.key + Pow2(left.height), NodeSum(left.hash, right.hash))
  }

  /** Merge the two top nodes of the stack while their heights agree. */
  function MergeAll(s: seq<Node>): seq<Node>
    decreases |s|
  {
    if |s| >= 2 && s[|s| - 2].height == s[|s| - 1].height then
      MergeAll(s[..|s| - 2] + [Merged(s[|s| - 2], s[|s| - 1])])
    else s
  }

  lemma MergedSubtree(leaves: seq<Bytes>, first: nat, h: nat)
    requires first + Pow2(h + 1) <= |leaves|
    ensures Merged(SubtreeNode(leaves, first, h), SubtreeNode(leaves, first + Pow2(h), h)) == SubtreeNode(leaves, first, h + 1)
  {
  }

  /** Merging only ever looks at the top of the stack. */
  lemma {:induction false} MergeAllAppend(p: seq<Node>, s: seq<Node>)
    requires |s| >= 1
    ensures MergeAll(p + s) == MergeAll(p + MergeAll(s))
    decreases |s|
  {
    if |s| >= 2 && s[|s| - 2].height == s[|s| - 1].height {
      var s' := s[..|s| - 2] + [Merged(s[|s| - 2], s[|s| - 1])];
      var ps := p + s;
      assert ps[|ps| - 2] == s[|s| - 2] && ps[|ps| - 1] == s[|s| - 1];
      assert ps[..|ps| - 2] + [Merged(s[|s| - 2], s[|s| - 1])] == p + s';
      MergeAllAppend(p, s');
    }
  }

  /** A stack whose two top heights differ is left alone. */
  lemma MergeAllStable(s: seq<Node>)
    requires |s| < 2 || s[|s| - 2].height != s[|s| - 1].height
    ensures MergeAll(s) == s
  {
  }

  /** Pushing leaf `first + c` onto the peaks of `c` leaves and merging gives
      the peaks of `c + 1` leaves: the binary-counter carry. */
  lemma {:induction false} Carry(leaves: seq<Bytes>, first: nat, c: nat, h: nat)
    requires c + 1 <= Pow2(h) && first + c + 1 <= |leaves|
    ensures MergeAll(PeakNodes(leaves, first, c, h) + [SubtreeNode(leaves, first + c, 0)])
         == PeakNodes(leaves, first, c + 1, h)
    decreases h
  {
    if h == 0 {
      assert PeakNodes(leaves, first, c, h) == [];
    } else if c < Pow2(h - 1) {
      PeakNodesLower(leaves, first, c, h);
      PeakNodesLower(leaves, first, c + 1, h);
      Carry(leaves, first, c, h - 1);
    } else {
      Carry(leaves, first + Pow2(h - 1), c - Pow2(h - 1), h - 1);
      CarryLeft(leaves, first, c, h);
    }
  }

  /** The upper case of `Carry`: the left peak is the full left half, and
      the new leaf is absorbed by the peaks of the right half. */
  lemma CarryLeft(leaves: seq<Bytes>, first: nat, c: nat, h: nat)
    requires h > 0 && Pow2(h - 1) <= c && c + 1 <= Pow2(h) && first + c + 1 <= |leaves|
    requires MergeAll(PeakNodes(leaves, first + Pow2(h - 1), c - Pow2(h - 1), h - 1)
                      + [SubtreeNode(leaves, first + Pow2(h - 1) + (c - Pow2(h - 1)), 0)])
          == PeakNodes(leaves, first + Pow2(h - 1), c - Pow2(h - 1) + 1, h - 1)
    ensures MergeAll(PeakNodes(leaves, first, c, h) + [SubtreeNode(leaves, first + c, 0)])
         == PeakNodes(leaves, first, c + 1, h)
  {
    var half := Pow2(h - 1);
    var leaf := SubtreeNode(leaves, first + c, 0);
    assert first + half + (c - half) == first + c;
    assert c - half + 1 == c + 1 - half;
    var a := SubtreeNode(leaves, first, h - 1);
    var rest := PeakNodes(leaves, first + half, c - half, h - 1);
    assert PeakNodes(leaves, first, c, h) == [a] + rest;
    assert PeakNodes(leaves, first, c, h) + [leaf] == [a] + (rest + [leaf]);
    MergeAllAppend([a], rest + [leaf]);
    CarryRight(leaves, first, c, h);
  }

  /** The right half of `Carry`: once the right part has absorbed the new
      leaf, the left peak either merges with it (the subtree is now full) or
      stays apart. */
  lemma CarryRight(leaves: seq<Bytes>, first: nat, c: nat, h: nat)
    requires h > 0 && Pow2(h - 1) <= c && c + 1 <= Pow2(h) && first + c + 1 <= |leaves|
    ensures MergeAll([SubtreeNode(leaves, first, h - 1)] + PeakNodes(leaves, first + Pow2(h - 1), c + 1 - Pow2(h - 1), h - 1))
         == PeakNodes(leaves, first, c + 1, h)
  {
    if c + 1 == Pow2(h) {
      CarryRightFull(leaves, first, h);
    } else {
      CarryRightApart(leaves, first, c, h);
    }
  }

  /** The last leaf fills the subtree: the two halves merge into its root. */
  lemma CarryRightFull(leaves: seq<Bytes>, first: nat, h: nat)
    requires h > 0 && first + Pow2(h) <= |leaves|
    ensures MergeAll([SubtreeNode(leaves, first, h - 1)] + PeakNodes(leaves, first + Pow2(h - 1), Pow2(h) - Pow2(h - 1), h - 1))
         == PeakNodes(leaves, first, Pow2(h), h)
  {
    var half := Pow2(h - 1);
    assert Pow2(h) - half == half;
    var a := SubtreeNode(leaves, first, h - 1);
    var b := SubtreeNode(leaves, first + half, h - 1);
    assert PeakNodes(leaves, first + half, half, h - 1) == [b];
    MergedSubtree(leaves, first, h - 1);
    assert [a] + [b] == [a, b];
    assert MergeAll([a, b]) == MergeAll([Merged(a, b)]);
  }

  /** The subtree is not yet full: the right peaks are all lower than the
      left half, so nothing merges. */
  lemma CarryRightApart(leaves: seq<Bytes>, first: nat, c: nat, h: nat)
    requires h > 0 && Pow2(h - 1) <= c && c + 1 < Pow2(h) && first + c + 1 <= |leaves|
    ensures MergeAll([SubtreeNode(leaves, first, h - 1)] + PeakNodes(leaves, first + Pow2(h - 1), c + 1 - Pow2(h - 1), h - 1))
         == PeakNodes(leaves, first, c + 1, h)
  {
    var half := Pow2(h - 1);
    var a := SubtreeNode(leaves, first, h - 1);
    var rest' := PeakNodes(leaves, first + half, c + 1 - half, h - 1);
    PeakNodesShape(leaves, first + half, c + 1 - half, h - 1);
    var s := [a] + rest';
    assert s[|s| - 2].height != s[|s| - 1].height by {
      if |rest'| == 1 {
        assert s[|s| - 1] == rest'[0];
      } else {
        assert s[|s| - 2] == rest'[|rest'| - 2] && s[|s| - 1] == rest'[|rest'| - 1];
      }
    }
    MergeAllStable(s);
  }

  // ---------------------------------------------------------------------------
  // Tree state, push and the storage it writes
  // ---------------------------------------------------------------------------

  /** `s` lies over consecutive balanced subtrees of `leaves` that cover
      leaves `start .. end`, the top of the stack covering the last ones. */
  predicate Tiles(leaves: seq<Bytes>, s: seq<Node>, start: nat, end: nat)
    decreases |s|
  {
    if s == [] then start == end
    else
      var t := s[|s| - 1];
      start + Pow2(t.height) <= end <= |leaves| &&
      t == SubtreeNode(leaves, end - Pow2(t.height), t.height) &&
      Tiles(leaves, s[..|s| - 1], start, end - Pow2(t.height))
  }

  /** Keys of tiles over `start .. end` lie in `2 * start .. 2 * end - 2`. */
  lemma {:induction false} TilesKeys(leaves: seq<Bytes>, s: seq<Node>, start: nat, end: nat)
    requires Tiles(leaves, s, start, end)
    ensures forall i :: 0 <= i < |s| ==> 2 * start <= s[i].key && s[i].key + 2 <= 2 * end
    decreases |s|
  {
    if s != [] {
      var t := s[|s| - 1];
      var s' := s[..|s| - 1];
      TilesKeys(leaves, s', start, end - Pow2(t.height));
      forall i | 0 <= i < |s|
        ensures 2 * start <= s[i].key && s[i].key + 2 <= 2 * end
      {
        if i < |s| - 1 {
          assert s[i] == s'[i];
        }
      }
    }
  }

  lemma {:induction false} TilesPrepend(leaves: seq<Bytes>, first: nat, h: nat, rest: seq<Node>, end: nat)
    requires first + Pow2(h) <= end <= |leaves| && Tiles(leaves, rest, first + Pow2(h), end)
    ensures Tiles(leaves, [SubtreeNode(leaves, first, h)] + rest, first, end)
    decreases |rest|
  {
    var x := SubtreeNode(leaves, first, h);
    if rest == [] {
      assert ([x] + rest)[..0] == [];
    } else {
      var t := rest[|rest| - 1];
      TilesPrepend(leaves, first, h, rest[..|rest| - 1], end - Pow2(t.height));
      assert ([x] + rest)[..|rest|] == [x] + rest[..|rest| - 1];
    }
  }

  lemma {:induction false} PeakNodesTile(leaves: seq<Bytes>, first: nat, c: nat, h: nat)
    requires first + c <= |leaves| && c <= Pow2(h)
    ensures Tiles(leaves, PeakNodes(leaves, first, c, h), first, first + c)
    decreases h
  {
    if c == 0 {
    } else if c == Pow2(h) {
      TilesPrepend(leaves, first, h, [], first + c);
      PeakNodesFull(leaves, first, c, h);
    } else if c >= Pow2(h - 1) {
      PeakNodesTile(leaves, first + Pow2(h - 1), c - Pow2(h - 1), h - 1);
      TilesSplit(leaves, first, c, h);
    } else {
      PeakNodesTile(leaves, first, c, h - 1);
      PeakNodesLower(leaves, first, c, h);
    }
  }

  lemma TilesSplit(leaves: seq<Bytes>, first: nat, c: nat, h: nat)
    requires h > 0 && Pow2(h - 1) <= c < Pow2(h) && first + c <= |leaves|
    requires Tiles(leaves, PeakNodes(leaves, first + Pow2(h - 1), c - Pow2(h - 1), h - 1), first + Pow2(h - 1), first + c)
    ensures Tiles(leaves, PeakNodes(leaves, first, c, h), first, first + c)
  {
    var rest := PeakNodes(leaves, first + Pow2(h - 1), c - Pow2(h - 1), h - 1);
    TilesPrepend(leaves, first, h - 1, rest, first + c);
    PeakNodesSplit(leaves, first, c, h);
  }

  lemma PeakNodesFull(leaves: seq<Bytes>, first: nat, c: nat, h: nat)
    requires 0 < c == Pow2(h) && first + c <= |leaves|
    ensures PeakNodes(leaves, first, c, h) == [SubtreeNode(leaves, first, h)] + []
  {
  }

  /** At or above half the subtree, the left half is the first peak. */
  lemma PeakNodesSplit(leaves: seq<Bytes>, first: nat, c: nat, h: nat)
    requires h > 0 && Pow2(h - 1) <= c < Pow2(h) && first + c <= |leaves|
    ensures PeakNodes(leaves, first, c, h)
         == [SubtreeNode(leaves, first, h - 1)] + PeakNodes(leaves, first + Pow2(h - 1), c - Pow2(h - 1), h - 1)
  {
  }

  /** The state of a `MerkleTree`: its storage, its peak stack (the
      `MerkleRootCalculator`) and its leaf count. */
  datatype TreeState = TreeState(storage: map<nat, Node>, nodes: seq<Node>, leavesCount: nat)

  /** Result of merging the stack top: the stack, the storage, and whether
      every needed parent position existed. */
  datatype Merge = Merge(nodes: seq<Node>, storage: map<nat, Node>, ok: bool)

  /** The node stack's merge loop with its storage callback: while the two top
      nodes have the same height they are replaced by their parent, which is
      written to storage; a parent position past the u64 range stops it. */
  function MergeSpec(s: seq<Node>, storage: map<nat, Node>): Merge
    decreases |s|
  {
    if |s| >= 2 && s[|s| - 2].height == s[|s| - 1].height then
      var left := s[|s| - 2];
      if left.key + Pow2(left.height) > U64_MAX then Merge(s, storage, false)
      else
        var parent := Merged(left, s[|s| - 1]);
        MergeSpec(s[..|s| - 2] + [parent], storage[parent.key := parent])
    else Merge(s, storage, true)
  }

  datatype Pushed = Pushed(state: TreeState, outcome: Result<(), MerkleTreeError>)

  /** `push`: the new leaf gets leaf index `leavesCount`; it is written to
      storage and pushed onto the stack, which then merges. */
  function PushSpec(t: TreeState, data: Bytes): (r: Pushed)
    ensures 2 * t.leavesCount > U64_MAX ==> r == Pushed(t, Err(TooLarge))
    ensures 2 * t.leavesCount <= U64_MAX ==> r.state.leavesCount == t.leavesCount + 1
  {
    if 2 * t.leavesCount > U64_MAX then Pushed(t, Err(TooLarge))
    else
      var leaf := Node(0, 2 * t.leavesCount, LeafSum(data));
      var m := MergeSpec(t.nodes + [leaf], t.storage[leaf.key := leaf]);
      Pushed(TreeState(m.storage, m.nodes, t.leavesCount + 1), if m.ok then Ok(()) else Err(TooLarge))
  }

  predicate PeaksStored(storage: map<nat, Node>, s: seq<Node>)
  {
    forall i :: 0 <= i < |s| ==> s[i].key in storage && storage[s[i].key] == s[i]
  }

  /** `t` is the tree that pushing `leaves` builds: the leaf count is theirs,
      the stack holds their peaks and every peak is in storage. */
  predicate Represents(t: TreeState, leaves: seq<Bytes>)
  {
    |leaves| <= MAX_LEAVES && t.leavesCount == |leaves| && t.nodes == Peaks(leaves) && PeaksStored(t.storage, t.nodes)
  }

  /** `n` is the head of a balanced subtree of `leaves`, stored under its own in-order index. */
  predicate IsBalancedHead(leaves: seq<Bytes>, n: Node)
  {
    n.key + 1 >= Pow2(n.height) && (n.key + 1 - Pow2(n.height)) % 2 == 0 &&
    var first := (n.key + 1 - Pow2(n.height)) / 2;
    first + Pow2(n.height) <= |leaves| && n == SubtreeNode(leaves, first, n.height)
  }

  /** Going from `before` to `after` removed nothing, and every key written
      now holds the head of a balanced subtree of `leaves`. */
  predicate WritesHeads(before: map<nat, Node>, after: map<nat, Node>, leaves: seq<Bytes>)
  {
    before.Keys <= after.Keys &&
    forall k :: k in after ==> (k in before && after[k] == before[k]) || IsBalancedHead(leaves, after[k])
  }

  /** Going from `before` to `after` left every even key (every leaf position) alone. */
  predicate LeafKeysKept(before: map<nat, Node>, after: map<nat, Node>)
  {
    forall k :: k in before && k % 2 == 0 ==> k in after && after[k] == before[k]
  }

  /** Leaf position `2 * i` survives a change that keeps every leaf key. */
  lemma LeafKeyKept(before: map<nat, Node>, after: map<nat, Node>, i: nat)
    requires LeafKeysKept(before, after) && 2 * i in before
    ensures 2 * i in after && after[2 * i] == before[2 * i]
  {
    assert (2 * i) % 2 == 0;
  }

  lemma WritesHeadsTrans(a: map<nat, Node>, b: map<nat, Node>, c: map<nat, Node>, leaves: seq<Bytes>)
    requires WritesHeads(a, b, leaves) && WritesHeads(b, c, leaves)
    ensures WritesHeads(a, c, leaves)
  {
  }

  lemma LeafKeysKeptTrans(a: map<nat, Node>, b: map<nat, Node>, c: map<nat, Node>)
    requires LeafKeysKept(a, b) && LeafKeysKept(b, c)
    ensures LeafKeysKept(a, c)
  {
  }

  /** One merge step keeps the stack a tiling with stored peaks, and writes
      only the new parent, a balanced head at an odd key. */
  lemma MergeStep(leaves: seq<Bytes>, s: seq<Node>, storage: map<nat, Node>, end: nat)
    requires |s| >= 2 && s[|s| - 2].height == s[|s| - 1].height
    requires Tiles(leaves, s, 0, end) && 2 * end <= U64_MAX + 1 && PeaksStored(storage, s)
    ensures s[|s| - 2].key + Pow2(s[|s| - 2].height) <= U64_MAX
    ensures var m := Merged(s[|s| - 2], s[|s| - 1]);
      var s' := s[..|s| - 2] + [m];
      var st' := storage[m.key := m];
      Tiles(leaves, s', 0, end) && PeaksStored(st', s') && WritesHeads(storage, st', leaves) && LeafKeysKept(storage, st')
  {
    var p := s[..|s| - 2];
    var l := TilesTopTwo(leaves, s, end);
    var m := Merged(s[|s| - 2], s[|s| - 1]);
    MergedKey(leaves, s[|s| - 2], s[|s| - 1], l, end);
    TilesAppend(leaves, p, l, m, end);
    TilesKeys(leaves, p, 0, l);
    MergedStored(storage, s, p, m, l);
    MergedWrite(leaves, storage, m);
  }

  /** The two equal-height nodes on top of a tiling cover the last
      `2 * 2^h` leaves, from `l` on, and the rest of the stack tiles what
      precedes them. */
  lemma TilesTopTwo(leaves: seq<Bytes>, s: seq<Node>, end: nat) returns (l: nat)
    requires |s| >= 2 && s[|s| - 2].height == s[|s| - 1].height && Tiles(leaves, s, 0, end)
    ensures var h := s[|s| - 2].height;
      l + 2 * Pow2(h) == end <= |leaves| &&
      s[|s| - 2] == SubtreeNode(leaves, l, h) &&
      s[|s| - 1] == SubtreeNode(leaves, l + Pow2(h), h) &&
      Tiles(leaves, s[..|s| - 2], 0, l)
  {
    var s1 := s[..|s| - 1];
    var h := s[|s| - 1].height;
    assert Tiles(leaves, s1, 0, end - Pow2(h));
    assert s1[..|s1| - 1] == s[..|s| - 2] && s1[|s1| - 1] == s[|s| - 2];
    l := end - 2 * Pow2(h);
  }

  /** A balanced subtree right after a tiling extends it. */
  lemma TilesAppend(leaves: seq<Bytes>, p: seq<Node>, l: nat, n: Node, end: nat)
    requires Tiles(leaves, p, 0, l) && end == l + Pow2(n.height) <= |leaves|
    requires n == SubtreeNode(leaves, l, n.height)
    ensures Tiles(leaves, p + [n], 0, end)
  {
    var s' := p + [n];
    assert s'[..|s'| - 1] == p;
  }

  /** The parent of the two halves of leaves `l .. end` is their balanced
      subtree, a head at an odd key below `2 * end`. */
  lemma MergedKey(leaves: seq<Bytes>, a: Node, b: Node, l: nat, end: nat)
    requires a.height == b.height && end == l + 2 * Pow2(a.height) <= |leaves|
    requires a == SubtreeNode(leaves, l, a.height) && b == SubtreeNode(leaves, l + Pow2(a.height), a.height)
    ensures var m := Merged(a, b);
      m == SubtreeNode(leaves, l, m.height) && end == l + Pow2(m.height) &&
      2 * l < m.key < 2 * end && m.key % 2 == 1 && IsBalancedHead(leaves, m)
  {
    var h := a.height;
    MergedSubtree(leaves, l, h);
    var m := Merged(a, b);
    assert Pow2(h + 1) == 2 * Pow2(h);
    assert m.key == 2 * l + Pow2(h + 1) - 1;
    assert m.key + 1 - Pow2(h + 1) == 2 * l;
    assert (2 * l) % 2 == 0 && (2 * l) / 2 == l;
  }

  /** The rest of the stack stays stored when the parent is written above
      every key it holds. */
  lemma MergedStored(storage: map<nat, Node>, s: seq<Node>, p: seq<Node>, m: Node, l: nat)
    requires |s| >= 2 && p == s[..|s| - 2] && PeaksStored(storage, s)
    requires forall i :: 0 <= i < |p| ==> 2 * 0 <= p[i].key && p[i].key + 2 <= 2 * l
    requires 2 * l < m.key
    ensures PeaksStored(storage[m.key := m], p + [m])
  {
    var s' := p + [m];
    var st' := storage[m.key := m];
    forall i | 0 <= i < |s'|
      ensures s'[i].key in st' && st'[s'[i].key] == s'[i]
    {
      if i < |p| {
        assert s'[i] == p[i] == s[i];
      }
    }
  }

  /** Writing a balanced head at an odd key writes a head and keeps every leaf key. */
  lemma MergedWrite(leaves: seq<Bytes>, storage: map<nat, Node>, m: Node)
    requires IsBalancedHead(leaves, m) && m.key % 2 == 1
    ensures WritesHeads(storage, storage[m.key := m], leaves)
    ensures LeafKeysKept(storage, storage[m.key := m])
  {
  }

  lemma {:induction false} MergeSpecTiles(leaves: seq<Bytes>, s: seq<Node>, storage: map<nat, Node>, end: nat)
    requires |s| >= 1 && Tiles(leaves, s, 0, end) && 2 * end <= U64_MAX + 1 && PeaksStored(storage, s)
    ensures MergeSpec(s, storage).ok
    ensures MergeSpec(s, storage).nodes == MergeAll(s)
    ensures PeaksStored(MergeSpec(s, storage).storage, MergeSpec(s, storage).nodes)
    ensures WritesHeads(storage, MergeSpec(s, storage).storage, leaves)
    ensures LeafKeysKept(storage, MergeSpec(s, storage).storage)
    decreases |s|
  {
    if |s| >= 2 && s[|s| - 2].height == s[|s| - 1].height {
      MergeStep(leaves, s, storage, end);
      var m := Merged(s[|s| - 2], s[|s| - 1]);
      var s' := s[..|s| - 2] + [m];
      var st' := storage[m.key := m];
      MergeSpecTiles(leaves, s', st', end);
      WritesHeadsTrans(storage, st', MergeSpec(s', st').storage, leaves);
      LeafKeysKeptTrans(storage, st', MergeSpec(s', st').storage);
    }
  }

  lemma TilesPush(leaves: seq<Bytes>, s: seq<Node>, n: nat)
    requires n < |leaves| && Tiles(leaves, s, 0, n)
    ensures Tiles(leaves, s + [SubtreeNode(leaves, n, 0)], 0, n + 1)
  {
    var s' := s + [SubtreeNode(leaves, n, 0)];
    assert s'[..|s'| - 1] == s;
  }

  lemma StoredPush(storage: map<nat, Node>, s: seq<Node>, top: Node)
    requires PeaksStored(storage, s)
    requires forall i :: 0 <= i < |s| ==> s[i].key != top.key
    ensures PeaksStored(storage[top.key := top], s + [top])
  {
    var s' := s + [top];
    forall i | 0 <= i < |s'|
      ensures s'[i].key in storage[top.key := top] && storage[top.key := top][s'[i].key] == s'[i]
    {
      if i < |s| {
        assert s'[i] == s[i];
      }
    }
  }

  /** Pushing the leaf itself: the enlarged stack still tiles and is stored. */
  lemma PushLeaf(t: TreeState, leaves: seq<Bytes>, data: Bytes)
    requires Represents(t, leaves) && |leaves| < MAX_LEAVES
    ensures var all := leaves + [data];
      var leaf := Node(0, 2 * |leaves|, LeafSum(data));
      var st := t.storage[leaf.key := leaf];
      leaf == SubtreeNode(all, |leaves|, 0) && |leaves| + 1 <= Pow2(CeilLog2(|leaves| + 1)) &&
      t.nodes == PeakNodes(all, 0, |leaves|, CeilLog2(|leaves| + 1)) &&
      Tiles(all, t.nodes + [leaf], 0, |leaves| + 1) && PeaksStored(st, t.nodes + [leaf]) &&
      WritesHeads(t.storage, st, all)
  {
    var n := |leaves|;
    var all := leaves + [data];
    var leaf := Node(0, 2 * n, LeafSum(data));
    PushLeafPeaks(leaves, data);
    PeakNodesTile(all, 0, n, CeilLog2(n + 1));
    LastLeafNode(leaves, data);
    TilesPush(all, t.nodes, n);
    TilesKeys(all, t.nodes, 0, n);
    StoredPush(t.storage, t.nodes, leaf);
    LeafIsBalancedHead(all, n);
  }

  /** The peaks of `leaves` are the decomposition of their count inside the
      longer list, at the height that fits one more leaf. */
  lemma PushLeafPeaks(leaves: seq<Bytes>, data: Bytes)
    requires |leaves| < MAX_LEAVES
    ensures var all := leaves + [data];
      |leaves| + 1 <= Pow2(CeilLog2(|leaves| + 1)) &&
      Peaks(leaves) == PeakNodes(all, 0, |leaves|, CeilLog2(|leaves| + 1))
  {
    CeilLog2Fits(|leaves| + 1);
    PeaksInLonger(leaves, data, CeilLog2(|leaves| + 1));
  }

  /** Appending a leaf leaves the decomposition of the earlier ones alone,
      whatever enclosing height it is taken at. */
  lemma PeaksInLonger(leaves: seq<Bytes>, data: Bytes, h: nat)
    requires |leaves| <= Pow2(h)
    ensures Peaks(leaves) == PeakNodes(leaves + [data], 0, |leaves|, h)
  {
    var all := leaves + [data];
    var n := |leaves|;
    CeilLog2Fits(n);
    assert leaves == all[..n];
    PeakNodesPrefix(leaves, all, 0, n, CeilLog2(n));
    PeakNodesAnyHeight(all, 0, n, CeilLog2(n), h);
  }

  /** The pushed leaf is the height-0 subtree at its index. */
  lemma LastLeafNode(leaves: seq<Bytes>, data: Bytes)
    ensures Node(0, 2 * |leaves|, LeafSum(data)) == SubtreeNode(leaves + [data], |leaves|, 0)
  {
    assert (leaves + [data])[|leaves|] == data;
  }

  /** Leaf `i` is the head of the balanced subtree of height 0 at `2 * i`. */
  lemma LeafIsBalancedHead(leaves: seq<Bytes>, i: nat)
    requires i < |leaves|
    ensures IsBalancedHead(leaves, Node(0, 2 * i, LeafSum(leaves[i])))
  {
    var k := 2 * i;
    assert Pow2(0) == 1;
    assert k + 1 - Pow2(0) == 2 * i;
    assert (2 * i) % 2 == 0 && (2 * i) / 2 == i;
  }

  /** Pushing onto a represented tree of fewer than 2^63 leaves succeeds and
      represents the longer leaf list; the new leaf is stored under key
      `2 * i`, no other leaf position is overwritten, and every write is the head of
      a balanced subtree. */
  lemma PushRepresents(t: TreeState, leaves: seq<Bytes>, data: Bytes)
    requires Represents(t, leaves) && |leaves| < MAX_LEAVES
    ensures PushSpec(t, data).outcome.Ok?
    ensures Represents(PushSpec(t, data).state, leaves + [data])
    ensures 2 * |leaves| in PushSpec(t, data).state.storage
    ensures PushSpec(t, data).state.storage[2 * |leaves|] == Node(0, 2 * |leaves|, LeafSum(data))
    ensures WritesHeads(t.storage, PushSpec(t, data).state.storage, leaves + [data])
  {
    var n := |leaves|;
    var all := leaves + [data];
    var leaf := Node(0, 2 * n, LeafSum(data));
    var st := t.storage[leaf.key := leaf];
    PushLeaf(t, leaves, data);
    MergeSpecTiles(all, t.nodes + [leaf], st, n + 1);
    var m := MergeSpec(t.nodes + [leaf], st);
    PushPeaks(leaves, data);
    WritesHeadsTrans(t.storage, st, m.storage, all);
    LeafKeyKept(st, m.storage, n);
    assert m.nodes == Peaks(all);
    assert PushSpec(t, data) == Pushed(TreeState(m.storage, m.nodes, n + 1), Ok(()));
  }

  /** Merging the new leaf into the peaks of `leaves` gives the peaks of the
      longer list. */
  lemma PushPeaks(leaves: seq<Bytes>, data: Bytes)
    requires |leaves| < MAX_LEAVES
    ensures MergeAll(Peaks(leaves) + [Node(0, 2 * |leaves|, LeafSum(data))]) == Peaks(leaves + [data])
  {
    var n := |leaves|;
    var all := leaves + [data];
    var h := CeilLog2(n + 1);
    PushLeafPeaks(leaves, data);
    LastLeafNode(leaves, data);
    Carry(all, 0, n, h);
    assert |all| == n + 1;
  }

  // ---------------------------------------------------------------------------
  // Every balanced subtree under the peaks stays in storage
  // ---------------------------------------------------------------------------

  /** Every node of the balanced subtree of height `h` over leaves
      `first .. first + 2^h` is in `storage` under its in-order index. */
  predicate SubtreeStored(storage: map<nat, Node>, leaves: seq<Bytes>, first: nat, h: nat)
    requires first + Pow2(h) <= |leaves|
    decreases h
  {
    InOrderIndex(first, h) in storage && storage[InOrderIndex(first, h)] == SubtreeNode(leaves, first, h) &&
    (h > 0 ==> SubtreeStored(storage, leaves, first, h - 1) && SubtreeStored(storage, leaves, first + Pow2(h - 1), h - 1))
  }

  /** Companion of `Tiles`: the tiles of `s`, the top one ending at leaf
      `end`, are stored subtrees. */
  predicate TilesStored(storage: map<nat, Node>, leaves: seq<Bytes>, s: seq<Node>, end: nat)
    decreases |s|
  {
    s != [] ==>
      var t := s[|s| - 1];
      Pow2(t.height) <= end <= |leaves| &&
      SubtreeStored(storage, leaves, end - Pow2(t.height), t.height) &&
      TilesStored(storage, leaves, s[..|s| - 1], end - Pow2(t.height))
  }

  /** The storage of `t` holds every node of every balanced subtree under
      the peaks of `leaves`, not only the peaks themselves. */
  predicate SubtreesStored(t: TreeState, leaves: seq<Bytes>)
  {
    TilesStored(t.storage, leaves, t.nodes, |leaves|)
  }

  /** The keys of a subtree lie in `2 * first .. 2 * (first + 2^h) - 2`; a map
      that agrees there holds the same subtree. */
  lemma {:induction false} SubtreeStoredAgree(a: map<nat, Node>, b: map<nat, Node>, leaves: seq<Bytes>, first: nat, h: nat)
    requires first + Pow2(h) <= |leaves| && SubtreeStored(a, leaves, first, h)
    requires forall k :: 2 * first <= k && k + 2 <= 2 * (first + Pow2(h)) && k in a ==> k in b && b[k] == a[k]
    ensures SubtreeStored(b, leaves, first, h)
    decreases h
  {
    if h > 0 {
      SubtreeStoredAgree(a, b, leaves, first, h - 1);
      SubtreeStoredAgree(a, b, leaves, first + Pow2(h - 1), h - 1);
    }
  }

  /** A write outside the keys of a subtree leaves it stored. */
  lemma SubtreeStoredWrite(storage: map<nat, Node>, leaves: seq<Bytes>, first: nat, h: nat, k: nat, v: Node)
    requires first + Pow2(h) <= |leaves| && SubtreeStored(storage, leaves, first, h)
    requires k < 2 * first || 2 * (first + Pow2(h)) <= k + 1
    ensures SubtreeStored(storage[k := v], leaves, first, h)
  {
    SubtreeStoredAgree(storage, storage[k := v], leaves, first, h);
  }

  lemma {:induction false} SubtreeStoredPrefix(storage: map<nat, Node>, leaves: seq<Bytes>, more: seq<Bytes>, first: nat, h: nat)
    requires first + Pow2(h) <= |leaves| <= |more| && leaves == more[..|leaves|]
    requires SubtreeStored(storage, leaves, first, h)
    ensures SubtreeStored(storage, more, first, h)
    decreases h
  {
    SubtreeHashPrefix(leaves, more, first, h);
    if h > 0 {
      SubtreeStoredPrefix(storage, leaves, more, first, h - 1);
      SubtreeStoredPrefix(storage, leaves, more, first + Pow2(h - 1), h - 1);
    }
  }

  /** A write at or past the last key of the tiles leaves them stored. */
  lemma {:induction false} TilesStoredWrite(storage: map<nat, Node>, leaves: seq<Bytes>, s: seq<Node>, end: nat, k: nat, v: Node)
    requires TilesStored(storage, leaves, s, end) && 2 * end <= k + 1
    ensures TilesStored(storage[k := v], leaves, s, end)
    decreases |s|
  {
    if s != [] {
      var t := s[|s| - 1];
      SubtreeStoredWrite(storage, leaves, end - Pow2(t.height), t.height, k, v);
      TilesStoredWrite(storage, leaves, s[..|s| - 1], end - Pow2(t.height), k, v);
    }
  }

  lemma {:induction false} TilesStoredPrefix(storage: map<nat, Node>, leaves: seq<Bytes>, more: seq<Bytes>, s: seq<Node>, end: nat)
    requires |leaves| <= |more| && leaves == more[..|leaves|]
    requires TilesStored(storage, leaves, s, end)
    ensures TilesStored(storage, more, s, end)
    decreases |s|
  {
    if s != [] {
      var t := s[|s| - 1];
      SubtreeStoredPrefix(storage, leaves, more, end - Pow2(t.height), t.height);
      TilesStoredPrefix(storage, leaves, more, s[..|s| - 1], end - Pow2(t.height));
    }
  }

  /** One merge step: the parent written over the two top tiles is a stored
      subtree, and it is written past the keys of every tile below them. */
  lemma MergeStepStored(leaves: seq<Bytes>, s: seq<Node>, storage: map<nat, Node>, end: nat)
    requires |s| >= 2 && s[|s| - 2].height == s[|s| - 1].height
    requires Tiles(leaves, s, 0, end) && TilesStored(storage, leaves, s, end)
    ensures var m := Merged(s[|s| - 2], s[|s| - 1]);
      TilesStored(storage[m.key := m], leaves, s[..|s| - 2] + [m], end)
  {
    var l := TilesTopTwo(leaves, s, end);
    var h := s[|s| - 2].height;
    var m := Merged(s[|s| - 2], s[|s| - 1]);
    MergedKey(leaves, s[|s| - 2], s[|s| - 1], l, end);
    TilesStoredTopTwo(storage, leaves, s, end, l, h);
    MergedParentStored(leaves, storage, s[..|s| - 2], l, h, m, end);
  }

  /** The two top tiles of a stored stack, of equal height `h` and ending at
      `end`, are stored subtrees, and so are the tiles below them. */
  lemma TilesStoredTopTwo(storage: map<nat, Node>, leaves: seq<Bytes>, s: seq<Node>, end: nat, l: nat, h: nat)
    requires |s| >= 2 && s[|s| - 2].height == h && s[|s| - 1].height == h
    requires l + 2 * Pow2(h) == end <= |leaves| && TilesStored(storage, leaves, s, end)
    ensures SubtreeStored(storage, leaves, l, h) && SubtreeStored(storage, leaves, l + Pow2(h), h)
    ensures TilesStored(storage, leaves, s[..|s| - 2], l)
  {
    var s1 := s[..|s| - 1];
    assert s1[|s1| - 1] == s[|s| - 2] && s1[..|s1| - 1] == s[..|s| - 2];
    assert TilesStored(storage, leaves, s1, l + Pow2(h));
  }

  /** The parent over two stored halves, written at its own key, is a stored
      subtree, and the tiles before it stay stored. */
  lemma MergedParentStored(leaves: seq<Bytes>, storage: map<nat, Node>, p: seq<Node>, l: nat, h: nat, m: Node, end: nat)
    requires end == l + Pow2(h + 1) <= |leaves| && m == SubtreeNode(leaves, l, h + 1)
    requires SubtreeStored(storage, leaves, l, h) && SubtreeStored(storage, leaves, l + Pow2(h), h)
    requires TilesStored(storage, leaves, p, l)
    ensures TilesStored(storage[m.key := m], leaves, p + [m], end)
  {
    Pow2Halves(h + 1);
    var st := storage[m.key := m];
    SubtreeStoredWrite(storage, leaves, l, h, m.key, m);
    SubtreeStoredWrite(storage, leaves, l + Pow2(h), h, m.key, m);
    TilesStoredWrite(storage, leaves, p, l, m.key, m);
    assert SubtreeStored(st, leaves, l, h + 1);
    assert (p + [m])[..|p|] == p;
  }

  lemma {:induction false} MergeSpecStored(leaves: seq<Bytes>, s: seq<Node>, storage: map<nat, Node>, end: nat)
    requires |s| >= 1 && Tiles(leaves, s, 0, end) && 2 * end <= U64_MAX + 1 && PeaksStored(storage, s)
    requires TilesStored(storage, leaves, s, end)
    ensures TilesStored(MergeSpec(s, storage).storage, leaves, MergeSpec(s, storage).nodes, end)
    decreases |s|
  {
    if |s| >= 2 && s[|s| - 2].height == s[|s| - 1].height {
      MergeStep(leaves, s, storage, end);
      MergeStepStored(leaves, s, storage, end);
      var m := Merged(s[|s| - 2], s[|s| - 1]);
      MergeSpecStored(leaves, s[..|s| - 2] + [m], storage[m.key := m], end);
    }
  }

  /** Pushing keeps every node of every balanced subtree under the peaks in
      storage: the leaf is written past all earlier keys, and each merge
      writes the parent of two stored halves. */
  lemma PushStored(t: TreeState, leaves: seq<Bytes>, data: Bytes)
    requires Represents(t, leaves) && SubtreesStored(t, leaves) && |leaves| < MAX_LEAVES
    ensures SubtreesStored(PushSpec(t, data).state, leaves + [data])
  {
    PushMergeStored(t, leaves, data);
    PushSpecState(t, data);
  }

  lemma PushMergeStored(t: TreeState, leaves: seq<Bytes>, data: Bytes)
    requires Represents(t, leaves) && SubtreesStored(t, leaves) && |leaves| < MAX_LEAVES
    ensures 2 * t.leavesCount <= U64_MAX
    ensures var leaf := Node(0, 2 * t.leavesCount, LeafSum(data));
      var m := MergeSpec(t.nodes + [leaf], t.storage[leaf.key := leaf]);
      TilesStored(m.storage, leaves + [data], m.nodes, |leaves| + 1)
  {
    var n := |leaves|;
    var all := leaves + [data];
    var leaf := Node(0, 2 * n, LeafSum(data));
    var st := t.storage[leaf.key := leaf];
    PushLeafTiles(t, leaves, data);
    PushLeafStored(t.storage, leaves, all, t.nodes, leaf);
    MergeSpecStored(all, t.nodes + [leaf], st, n + 1);
  }

  /** The facts about the pushed leaf that the merge loop's storage argument
      needs. */
  lemma PushLeafTiles(t: TreeState, leaves: seq<Bytes>, data: Bytes)
    requires Represents(t, leaves) && |leaves| < MAX_LEAVES
    ensures var all := leaves + [data];
      var leaf := Node(0, 2 * |leaves|, LeafSum(data));
      leaf == SubtreeNode(all, |leaves|, 0) && 2 * (|leaves| + 1) <= U64_MAX + 1 &&
      Tiles(all, t.nodes + [leaf], 0, |leaves| + 1) && PeaksStored(t.storage[leaf.key := leaf], t.nodes + [leaf])
  {
    PushLeaf(t, leaves, data);
  }

  /** Below the leaf limit, the pushed state is the merge loop's result over
      the stack with the new leaf on top. */
  lemma PushSpecState(t: TreeState, data: Bytes)
    requires 2 * t.leavesCount <= U64_MAX
    ensures var leaf := Node(0, 2 * t.leavesCount, LeafSum(data));
      var m := MergeSpec(t.nodes + [leaf], t.storage[leaf.key := leaf]);
      PushSpec(t, data).state == TreeState(m.storage, m.nodes, t.leavesCount + 1)
  {
  }

  /** The pushed leaf is written past every key of the earlier tiles and is
      itself a stored subtree of height 0. */
  lemma PushLeafStored(storage: map<nat, Node>, leaves: seq<Bytes>, all: seq<Bytes>, s: seq<Node>, leaf: Node)
    requires |all| == |leaves| + 1 && leaves == all[..|leaves|]
    requires leaf == SubtreeNode(all, |leaves|, 0) && leaf.key == 2 * |leaves|
    requires TilesStored(storage, leaves, s, |leaves|)
    ensures TilesStored(storage[leaf.key := leaf], all, s + [leaf], |leaves| + 1)
  {
    var n := |leaves|;
    var st := storage[leaf.key := leaf];
    TilesStoredPrefix(storage, leaves, all, s, n);
    TilesStoredWrite(storage, all, s, n, leaf.key, leaf);
    assert SubtreeStored(st, all, n, 0);
    assert (s + [leaf])[..|s|] == s;
  }

  /** Pushing data onto a represented tree whose subtrees are stored keeps
      them stored, for the longer leaf list. */
  lemma {:induction false} PushAllStored(t: TreeState, leaves: seq<Bytes>, ds: seq<Bytes>)
    requires Represents(t, leaves) && SubtreesStored(t, leaves) && |leaves| + |ds| <= MAX_LEAVES
    ensures SubtreesStored(PushAll(t, ds), leaves + ds)
    decreases |ds|
  {
    if ds != [] {
      var more := leaves + [ds[0]];
      assert more + ds[1..] == leaves + ds;
      PushRepresents(t, leaves, ds[0]);
      PushStored(t, leaves, ds[0]);
      PushAllStored(PushSpec(t, ds[0]).state, more, ds[1..]);
    } else {
      assert leaves + ds == leaves;
    }
  }

  // ---------------------------------------------------------------------------
  // Root
  // ---------------------------------------------------------------------------

  /** The head built by `root_node` and the intermediate nodes it put in the
      scratch storage. */
  datatype Folded = Folded(head: Node, scratch: map<nat, Node>)

  /** `root_node` on a non-empty stack: starting from the top node, each lower
      peak becomes the left child of a new head at the peak's parent position;
      every such head goes to the scratch storage. */
  function FoldPeaks(s: seq<Node>): Result<Folded, MerkleTreeError>
    requires |s| >= 1
    decreases |s|
  {
    if |s| == 1 then Ok(Folded(s[0], map[]))
    else
      match FoldPeaks(s[1..])
      case Err(e) => Err(e)
      case Ok(f) =>
        if s[0].key + Pow2(s[0].height) > U64_MAX then Err(TooLarge)
        else
          var head := Node(s[0].height + 1, s[0].key + Pow2(s[0].height), NodeSum(s[0].hash, f.head.hash));
          Ok(Folded(head, f.scratch[head.key := head]))
  }

  /** `root_node`: `None` for an empty stack. */
  function RootNodeSpec(s: seq<Node>): Result<Option<Folded>, MerkleTreeError>
  {
    if s == [] then Ok(None)
    else
      match FoldPeaks(s)
      case Err(e) => Err(e)
      case Ok(f) => Ok(Some(f))
  }

  /** `root`: the empty sum for an empty stack, the head's hash otherwise. */
  function RootHash(s: seq<Node>): Hash
    requires RootNodeSpec(s).Ok?
  {
    if s == [] then EmptySum else FoldPeaks(s).value.head.hash
  }

  /** Reference root of the leaves placed in a balanced frame of height `h`
      (room for `2^h` leaves): a half that holds no leaf is left out, so a
      node with an empty right half is its left half. */
  function MerkleRootAt(leaves: seq<Bytes>, h: nat): Hash
    requires |leaves| <= Pow2(h)
    decreases h
  {
    if |leaves| == 0 then EmptySum
    else if h == 0 then LeafSum(leaves[0])
    else if |leaves| <= Pow2(h - 1) then MerkleRootAt(leaves, h - 1)
    else NodeSum(MerkleRootAt(leaves[..Pow2(h - 1)], h - 1), MerkleRootAt(leaves[Pow2(h - 1)..], h - 1))
  }

  /** Reference root of a binary Merkle tree over `leaves`, in the smallest frame that holds them. */
  function MerkleRoot(leaves: seq<Bytes>): Hash
  {
    CeilLog2Fits(|leaves|);
    MerkleRootAt(leaves, CeilLog2(|leaves|))
  }

  /** A larger frame does not change the root. */
  lemma {:induction false} MerkleRootAtLift(leaves: seq<Bytes>, h: nat, h': nat)
    requires h <= h' && |leaves| <= Pow2(h)
    ensures |leaves| <= Pow2(h')
    ensures MerkleRootAt(leaves, h') == MerkleRootAt(leaves, h)
    decreases h' - h
  {
    Pow2Monotone(h, h');
    if h < h' {
      Pow2Monotone(h, h' - 1);
      MerkleRootAtLift(leaves, h, h' - 1);
    }
  }

  /** Where a tree of `n >= 2` leaves splits: the largest power of two below `n`. */
  function SplitPoint(n: nat): (k: nat)
    requires n >= 2
    ensures 0 < k < n <= 2 * k
  {
    CeilLog2Bounds(n);
    Pow2(CeilLog2(n) - 1)
  }

  /** The reference root splits a tree of two or more leaves at the largest
      power of two strictly below the leaf count: the left subtree is
      balanced, the right one holds the rest. */
  lemma MerkleRootSplit(leaves: seq<Bytes>)
    requires |leaves| >= 2
    ensures var k := SplitPoint(|leaves|);
      MerkleRoot(leaves) == NodeSum(MerkleRoot(leaves[..k]), MerkleRoot(leaves[k..]))
  {
    var n := |leaves|;
    CeilLog2Bounds(n);
    MerkleRootSplitAt(leaves, CeilLog2(n));
  }

  lemma MerkleRootSplitAt(leaves: seq<Bytes>, h: nat)
    requires h == CeilLog2(|leaves|) && h > 0 && Pow2(h - 1) < |leaves| <= Pow2(h)
    ensures MerkleRoot(leaves) == NodeSum(MerkleRoot(leaves[..Pow2(h - 1)]), MerkleRoot(leaves[Pow2(h - 1)..]))
  {
    MerkleRootAtHalves(leaves, h);
    var k := Pow2(h - 1);
    CeilLog2Exact(k, h - 1);
    MerkleRootInFrame(leaves[k..], h - 1);
  }

  /** A root at height `h` over more than half of its frame joins the two halves. */
  lemma MerkleRootAtHalves(leaves: seq<Bytes>, h: nat)
    requires h > 0 && Pow2(h - 1) < |leaves| <= Pow2(h)
    ensures MerkleRootAt(leaves, h)
         == NodeSum(MerkleRootAt(leaves[..Pow2(h - 1)], h - 1), MerkleRootAt(leaves[Pow2(h - 1)..], h - 1))
  {
  }

  /** The reference root is the root in any frame that holds the leaves. */
  lemma MerkleRootInFrame(leaves: seq<Bytes>, h: nat)
    requires |leaves| <= Pow2(h)
    ensures MerkleRoot(leaves) == MerkleRootAt(leaves, h)
  {
    CeilLog2Least(|leaves|, h);
    CeilLog2Fits(|leaves|);
    MerkleRootAtLift(leaves, CeilLog2(|leaves|), h);
  }

  lemma {:induction false} SubtreeHashIsMerkleRoot(leaves: seq<Bytes>, first: nat, h: nat)
    requires first + Pow2(h) <= |leaves|
    ensures SubtreeHash(leaves, first, h) == MerkleRootAt(leaves[first..first + Pow2(h)], h)
    decreases h
  {
    if h == 0 {
      assert leaves[first..first + 1][0] == leaves[first];
    } else {
      Pow2Halves(h);
      SubtreeHashIsMerkleRoot(leaves, first, h - 1);
      SubtreeHashIsMerkleRoot(leaves, first + Pow2(h - 1), h - 1);
      SubtreeHashJoin(leaves, first, h);
    }
  }

  lemma SubtreeHashJoin(leaves: seq<Bytes>, first: nat, h: nat)
    requires h > 0 && first + Pow2(h) <= |leaves|
    requires SubtreeHash(leaves, first, h - 1) == MerkleRootAt(leaves[first..first + Pow2(h - 1)], h - 1)
    requires SubtreeHash(leaves, first + Pow2(h - 1), h - 1)
          == MerkleRootAt(leaves[first + Pow2(h - 1)..first + Pow2(h - 1) + Pow2(h - 1)], h - 1)
    ensures SubtreeHash(leaves, first, h) == MerkleRootAt(leaves[first..first + Pow2(h)], h)
  {
    var half := Pow2(h - 1);
    Pow2Halves(h);
    var sl := leaves[first..first + half + half];
    var lower, upper := leaves[first..first + half], leaves[first + half..first + half + half];
    assert |lower| == half && |upper| == half;
    SliceHalves(leaves, first, half);
    assert sl[..half] == lower && sl[half..] == upper;
    MerkleRootAtHalves(sl, h);
    assert MerkleRootAt(sl, h) == NodeSum(MerkleRootAt(lower, h - 1), MerkleRootAt(upper, h - 1));
  }

  lemma Pow2Halves(h: nat)
    requires h > 0
    ensures Pow2(h) == Pow2(h - 1) + Pow2(h - 1)
  {
  }

  lemma SliceHalves<T>(s: seq<T>, first: nat, half: nat)
    requires first + half + half <= |s|
    ensures s[first..first + half + half][..half] == s[first..first + half]
    ensures s[first..first + half + half][half..] == s[first + half..first + half + half]
  {
  }

  /** Folding the peaks of `c` leaves gives the reference root of those leaves,
      and no parent position leaves the u64 range on the way. */
  lemma {:induction false} FoldPeakNodes(leaves: seq<Bytes>, first: nat, c: nat, h: nat)
    requires 0 < c <= Pow2(h) && first + c <= |leaves| && 2 * (first + Pow2(h)) <= U64_MAX + 1
    ensures PeakNodes(leaves, first, c, h) != [] && FoldPeaks(PeakNodes(leaves, first, c, h)).Ok?
    ensures FoldPeaks(PeakNodes(leaves, first, c, h)).value.head.hash == MerkleRootAt(leaves[first..first + c], h)
    decreases h
  {
    PeakNodesShape(leaves, first, c, h);
    if c == Pow2(h) {
      SubtreeHashIsMerkleRoot(leaves, first, h);
    } else if c > Pow2(h - 1) {
      FoldPeakNodesSplit(leaves, first, c, h);
    } else {
      PeakNodesLower(leaves, first, c, h);
      FoldPeakNodes(leaves, first, c, h - 1);
      assert MerkleRootAt(leaves[first..first + c], h) == MerkleRootAt(leaves[first..first + c], h - 1);
    }
  }

  lemma {:induction false} FoldPeakNodesSplit(leaves: seq<Bytes>, first: nat, c: nat, h: nat)
    requires h > 0 && Pow2(h - 1) < c < Pow2(h) && first + c <= |leaves| && 2 * (first + Pow2(h)) <= U64_MAX + 1
    ensures PeakNodes(leaves, first, c, h) != [] && FoldPeaks(PeakNodes(leaves, first, c, h)).Ok?
    ensures FoldPeaks(PeakNodes(leaves, first, c, h)).value.head.hash == MerkleRootAt(leaves[first..first + c], h)
    decreases h, 0
  {
    UpperHalfBounds(first, c, h, |leaves|);
    FoldPeakNodes(leaves, first + Pow2(h - 1), c - Pow2(h - 1), h - 1);
    PeakNodesUpper(leaves, first, c, h);
    FoldUpper(leaves, first, c, h, PeakNodes(leaves, first + Pow2(h - 1), c - Pow2(h - 1), h - 1));
  }

  /** The upper case of `FoldPeakNodes`, given the fold of the right half. */
  lemma FoldUpper(leaves: seq<Bytes>, first: nat, c: nat, h: nat, rest: seq<Node>)
    requires h > 0 && Pow2(h - 1) < c < Pow2(h) && first + c <= |leaves| && 2 * (first + Pow2(h)) <= U64_MAX + 1
    requires rest != [] && FoldPeaks(rest).Ok?
    requires FoldPeaks(rest).value.head.hash
          == MerkleRootAt(leaves[first + Pow2(h - 1)..first + Pow2(h - 1) + (c - Pow2(h - 1))], h - 1)
    ensures FoldPeaks([SubtreeNode(leaves, first, h - 1)] + rest).Ok?
    ensures FoldPeaks([SubtreeNode(leaves, first, h - 1)] + rest).value.head.hash == MerkleRootAt(leaves[first..first + c], h)
  {
    UpperHalfBounds(first, c, h, |leaves|);
    SubtreeHashIsMerkleRoot(leaves, first, h - 1);
    MerkleRootAtSplit(leaves, first, c, h);
    FoldCons(SubtreeNode(leaves, first, h - 1), rest);
  }

  /** Above half the subtree, the left half is the first peak. */
  lemma PeakNodesUpper(leaves: seq<Bytes>, first: nat, c: nat, h: nat)
    requires h > 0 && Pow2(h - 1) < c < Pow2(h) && first + c <= |leaves|
    ensures PeakNodes(leaves, first, c, h)
         == [SubtreeNode(leaves, first, h - 1)] + PeakNodes(leaves, first + Pow2(h - 1), c - Pow2(h - 1), h - 1)
  {
  }

  /** The bounds on the right half that folding the upper case needs: its
      leaf count fits its frame, and the parent of the left half fits a u64. */
  lemma UpperHalfBounds(first: nat, c: nat, h: nat, n: nat)
    requires h > 0 && Pow2(h - 1) < c < Pow2(h) && first + c <= n && 2 * (first + Pow2(h)) <= U64_MAX + 1
    ensures 0 < c - Pow2(h - 1) <= Pow2(h - 1)
    ensures first + Pow2(h - 1) + (c - Pow2(h - 1)) <= n
    ensures 2 * (first + Pow2(h - 1) + Pow2(h - 1)) <= U64_MAX + 1
    ensures InOrderIndex(first, h - 1) + Pow2(h - 1) <= U64_MAX
  {
    assert Pow2(h) == 2 * Pow2(h - 1);
  }

  /** Folding a peak below a foldable stack puts it on the left of the head. */
  lemma FoldCons(a: Node, rest: seq<Node>)
    requires |rest| >= 1 && FoldPeaks(rest).Ok? && a.key + Pow2(a.height) <= U64_MAX
    ensures FoldPeaks([a] + rest).Ok?
    ensures FoldPeaks([a] + rest).value.head.hash == NodeSum(a.hash, FoldPeaks(rest).value.head.hash)
  {
    assert ([a] + rest)[1..] == rest;
  }

  /** The reference root of more than half a frame joins its two halves. */
  lemma MerkleRootAtSplit(leaves: seq<Bytes>, first: nat, c: nat, h: nat)
    requires h > 0 && Pow2(h - 1) < c <= Pow2(h) && first + c <= |leaves|
    ensures MerkleRootAt(leaves[first..first + c], h)
         == NodeSum(MerkleRootAt(leaves[first..first + Pow2(h - 1)], h - 1),
                    MerkleRootAt(leaves[first + Pow2(h - 1)..first + Pow2(h - 1) + (c - Pow2(h - 1))], h - 1))
  {
    var half := Pow2(h - 1);
    var sl := leaves[first..first + c];
    assert sl[..half] == leaves[first..first + half];
    assert sl[half..] == leaves[first + half..first + half + (c - half)];
  }

  lemma PeakHeightBound(n: nat)
    requires n <= MAX_LEAVES
    ensures 2 * Pow2(CeilLog2(n)) <= U64_MAX + 1
  {
    Pow2At63();
    CeilLog2Least(n, TOP_HEIGHT);
    Pow2Monotone(CeilLog2(n), TOP_HEIGHT);
  }

  /** The root of a represented tree is the reference root of its leaves:
      the empty sum for none, `leaf_sum` for one, and never an overflow. */
  lemma RootRepresents(t: TreeState, leaves: seq<Bytes>)
    requires Represents(t, leaves)
    ensures RootNodeSpec(t.nodes).Ok?
    ensures RootHash(t.nodes) == MerkleRoot(leaves)
  {
    var n := |leaves|;
    if n > 0 {
      CeilLog2Fits(n);
      PeakHeightBound(n);
      FoldPeakNodes(leaves, 0, n, CeilLog2(n));
      assert leaves[0..n] == leaves;
    }
  }

  // ---------------------------------------------------------------------------
  // Load
  // ---------------------------------------------------------------------------

  /** Look every key up in storage, failing on the first one that is missing. */
  function LookupNodes(storage: map<nat, Node>, keys: seq<nat>): (r: Result<seq<Node>, MerkleTreeError>)
    decreases |keys|
  {
    if keys == [] then Ok([])
    else if keys[0] !in storage then Err(LoadError(keys[0]))
    else
      match LookupNodes(storage, keys[1..])
      case Err(e) => Err(e)
      case Ok(ns) => Ok([storage[keys[0]]] + ns)
  }

  /** The lookup succeeds exactly when every key is stored, and then gives
      the stored nodes in key order; otherwise its error names the first
      missing key. */
  lemma {:induction false} LookupNodesCases(storage: map<nat, Node>, keys: seq<nat>)
    ensures LookupNodes(storage, keys).Ok? <==> forall i :: 0 <= i < |keys| ==> keys[i] in storage
    ensures LookupNodes(storage, keys).Ok? ==>
      |LookupNodes(storage, keys).value| == |keys| &&
      forall i :: 0 <= i < |keys| ==> LookupNodes(storage, keys).value[i] == storage[keys[i]]
    ensures LookupNodes(storage, keys).Err? ==>
      exists i :: 0 <= i < |keys| && keys[i] !in storage && LookupNodes(storage, keys).error == LoadError(keys[i]) &&
                  forall j :: 0 <= j < i ==> keys[j] in storage
    decreases |keys|
  {
    if keys != [] && keys[0] in storage {
      var tail := keys[1..];
      LookupNodesCases(storage, tail);
      assert forall j :: 1 <= j < |keys| ==> keys[j] == tail[j - 1];
      var rest := LookupNodes(storage, tail);
      if rest.Err? {
        var i :| 0 <= i < |tail| && tail[i] !in storage && rest.error == LoadError(tail[i]) &&
                 forall j :: 0 <= j < i ==> tail[j] in storage;
        assert keys[i + 1] !in storage && forall j :: 0 <= j < i + 1 ==> keys[j] in storage;
      } else {
        assert LookupNodes(storage, keys).value == [storage[keys[0]]] + rest.value;
      }
    } else if keys != [] {
      assert LookupNodes(storage, keys).error == LoadError(keys[0]);
    }
  }

  lemma EmptyScratch(storage: map<nat, Node>)
    ensures storage + map[] == storage
  {
  }

  /** `load`: rebuild the stack from the stored peaks of `n` leaves. */
  function LoadSpec(storage: map<nat, Node>, n: nat): Result<TreeState, MerkleTreeError>
  {
    match PeakPositions(n)
    case None => Err(TooLarge)
    case Some(keys) =>
      match LookupNodes(storage, keys)
      case Err(e) => Err(e)
      case Ok(ns) => Ok(TreeState(storage, ns, n))
  }

  lemma CollapseFull(first: nat, h: nat, m: nat)
    requires first + Pow2(h) <= m
    ensures Collapse(first, h, m) == InOrderIndex(first, h)
  {
  }

  /** The side positions of the path to leaf `n` in a tree of `n + 1` leaves
      are exactly the keys of the peaks of `n` leaves. */
  lemma {:induction false} SidesArePeaks(leaves: seq<Bytes>, first: nat, h: nat, n: nat)
    requires first <= n < first + Pow2(h) && n <= |leaves|
    ensures Sides(first, h, n, n + 1) == Keys(PeakNodes(leaves, first, n - first, h))
    decreases h
  {
    if h > 0 {
      var half := Pow2(h - 1);
      var mid := first + half;
      if n + 1 <= mid {
        PeakNodesLower(leaves, first, n - first, h);
        SidesArePeaks(leaves, first, h - 1, n);
      } else {
        CollapseFull(first, h - 1, n + 1);
        var a := SubtreeNode(leaves, first, h - 1);
        var rest := PeakNodes(leaves, mid, n - mid, h - 1);
        assert PeakNodes(leaves, first, n - first, h) == [a] + rest;
        assert ([a] + rest)[1..] == rest;
        SidesArePeaks(leaves, mid, h - 1, n);
      }
    }
  }

  /** `peak_positions` is `None` exactly when leaf `n` has no u64 position. */
  lemma PeakPositionsNone(n: nat)
    ensures PeakPositions(n).None? <==> n >= MAX_LEAVES
  {
  }

  /** Loading from the storage of a represented tree with its leaf count gives
      back the very same tree (so the same root), below 2^63 leaves. */
  lemma LoadRoundTrip(t: TreeState, leaves: seq<Bytes>)
    requires Represents(t, leaves) && |leaves| < MAX_LEAVES
    ensures LoadSpec(t.storage, |leaves|) == Ok(t)
  {
    PeakPositionsArePeaks(leaves);
    StoredLookup(t.storage, t.nodes);
  }

  /** The positions `load` reads for `n` leaves are the keys of their peaks. */
  lemma PeakPositionsArePeaks(leaves: seq<Bytes>)
    requires |leaves| < MAX_LEAVES
    ensures PeakPositions(|leaves|) == Some(Keys(Peaks(leaves)))
  {
    var n := |leaves|;
    var h := CeilLog2(n + 1);
    CeilLog2Fits(n);
    PeakPositionsSides(n);
    SidesArePeaks(leaves, 0, h, n);
    PeakNodesAnyHeight(leaves, 0, n, h, CeilLog2(n));
  }

  /** Looking up the keys of a stored stack gives the stack back. */
  lemma StoredLookup(storage: map<nat, Node>, s: seq<Node>)
    requires PeaksStored(storage, s)
    ensures LookupNodes(storage, Keys(s)) == Ok(s)
  {
    KeysIndex(s);
    LookupAllFound(storage, Keys(s), s);
  }

  /** Looking up keys that are all present gives the nodes stored under them. */
  lemma LookupAllFound(storage: map<nat, Node>, keys: seq<nat>, ns: seq<Node>)
    requires |ns| == |keys|
    requires forall j :: 0 <= j < |keys| ==> keys[j] in storage && ns[j] == storage[keys[j]]
    ensures LookupNodes(storage, keys) == Ok(ns)
  {
    LookupNodesCases(storage, keys);
    var r := LookupNodes(storage, keys);
    assert r.value == ns;
  }

  /** Looking up keys stops with `LoadError` at the first missing one. */
  lemma LookupFirstMissing(storage: map<nat, Node>, keys: seq<nat>, k: nat)
    requires k < |keys| && keys[k] !in storage
    requires forall j :: 0 <= j < k ==> keys[j] in storage
    ensures LookupNodes(storage, keys) == Err(LoadError(keys[k]))
  {
    LookupNodesCases(storage, keys);
    var r := LookupNodes(storage, keys);
    var i :| 0 <= i < |keys| && keys[i] !in storage && r.error == LoadError(keys[i]) &&
             forall j :: 0 <= j < i ==> keys[j] in storage;
    assert i == k;
  }

  /** The empty tree, made by `new` or loaded with no leaves, has the empty root. */
  lemma EmptyTreeRoot(storage: map<nat, Node>)
    ensures Represents(TreeState(storage, [], 0), [])
    ensures LoadSpec(storage, 0) == Ok(TreeState(storage, [], 0))
    ensures RootNodeSpec([]) == Ok(None) && RootHash([]) == EmptySum
  {
    PeakPositionsZero();
  }

  lemma PeakPositionsZero()
    ensures PeakPositions(0) == Some([])
  {
    PeakPositionsSides(0);
    var h := CeilLog2(0 + 1);
    assert h == 0;
    assert Sides(0, h, 0, 0 + 1) == [];
  }

  /** Below `MAX_LEAVES` leaves, `peak_positions` lists the side positions of
      the path to leaf `n` in a tree of `n + 1` leaves. */
  lemma PeakPositionsSides(n: nat)
    requires n < MAX_LEAVES
    ensures n < Pow2(CeilLog2(n + 1))
    ensures PeakPositions(n) == Some(Sides(0, CeilLog2(n + 1), n, n + 1))
  {
    var h := CeilLog2(n + 1);
    CeilLog2Bounds(n + 1);
    var p := PathSidePositions(h, n, n + 1);
    assert p[1..] == Sides(0, h, n, n + 1) by {
      assert p == [InOrderIndex(0, h)] + Sides(0, h, n, n + 1);
    }
    assert RootPosition(n).Some?;
  }

  /** `load` with `u64::MAX` leaves, or any count whose last leaf has no u64
      position, fails with `TooLarge` before reading storage. */
  lemma LoadTooLarge(storage: map<nat, Node>, n: nat)
    requires n >= MAX_LEAVES
    ensures LoadSpec(storage, n) == Err(TooLarge)
  {
    PeakPositionsNone(n);
  }

  /** `load` fails with `LoadError` at the first peak position missing from
      storage, and otherwise takes the stack from storage unchanged. */
  lemma LoadMissingPeak(storage: map<nat, Node>, n: nat, k: nat)
    requires PeakPositions(n).Some?
    requires var keys := PeakPositions(n).value;
      k < |keys| && keys[k] !in storage && forall j :: 0 <= j < k ==> keys[j] in storage
    ensures LoadSpec(storage, n) == Err(LoadError(PeakPositions(n).value[k]))
  {
    LookupFirstMissing(storage, PeakPositions(n).value, k);
  }

  // ---------------------------------------------------------------------------
  // Concrete roots
  // ---------------------------------------------------------------------------

  /** The root of one leaf is its `leaf_sum`; the root of seven leaves is
      `node_sum(node_3, node_sum(node_9, leaf_6))`, with `node_3` over leaves
      0..3 and `node_9` over leaves 4..5. */
  lemma ConcreteRoots(leaves: seq<Bytes>)
    ensures |leaves| == 1 ==> MerkleRoot(leaves) == LeafSum(leaves[0])
    ensures |leaves| == 7 ==>
      var l := seq(7, k requires 0 <= k < 7 => LeafSum(leaves[k]));
      MerkleRoot(leaves) == NodeSum(NodeSum(NodeSum(l[0], l[1]), NodeSum(l[2], l[3])),
                                    NodeSum(NodeSum(l[4], l[5]), l[6]))
  {
    if |leaves| == 1 {
      assert CeilLog2(1) == 0;
    }
    if |leaves| == 7 {
      assert CeilLog2(7) == 3 by {
        assert CeilLog2(4) == 2 by {
          assert CeilLog2(2) == 1;
        }
      }
      assert Pow2(2) == 4;
      var lo, hi := leaves[..4], leaves[4..];
      assert MerkleRootAt(leaves, 3) == NodeSum(MerkleRootAt(lo, 2), MerkleRootAt(hi, 2));
      assert lo[..2] == leaves[..2] && lo[2..] == leaves[2..4];
      assert hi[..2] == leaves[4..6] && hi[2..] == leaves[6..];
      assert MerkleRootAt(leaves[6..], 1) == MerkleRootAt(leaves[6..], 0);
    }
  }

  // ---------------------------------------------------------------------------
  // Prove
  // ---------------------------------------------------------------------------

  function Reverse<T>(s: seq<T>): (r: seq<T>)
    ensures |r| == |s| && forall k :: 0 <= k < |s| ==> r[k] == s[|s| - 1 - k]
  {
    if s == [] then [] else Reverse(s[1..]) + [s[0]]
  }

  /** The side positions `prove(i)` looks up in a tree of `n` leaves: the path
      from `root_position(n)` down to leaf `i`, reversed so that it runs from
      the leaf upwards, with its last entry (the root paired with itself)
      dropped. */
  function ProofKeys(n: nat, i: nat): seq<nat>
    requires i < n < U64_MAX
  {
    var root := RootPosition(n).value;
    CeilLog2Bounds(n + 1);
    var path := Reverse(PathSidePositions(CeilLog2(root + 1), i, n));
    path[..|path| - 1]
  }

  /** The proof keys are the side nodes of the path without the root, in the
      reverse of the top-down order `Sides` lists them: from the leaf up. */
  lemma ProofKeysLeafToRoot(n: nat, i: nat)
    requires i < n < U64_MAX
    ensures i < Pow2(CeilLog2(n + 1))
    ensures ProofKeys(n, i) == Reverse(Sides(0, CeilLog2(n + 1), i, n))
  {
    CeilLog2Bounds(n + 1);
    var h := CeilLog2(n + 1);
    assert CeilLog2(RootPosition(n).value + 1) == h;
    var p := PathSidePositions(h, i, n);
    var rp := Reverse(p);
    var sides := Sides(0, h, i, n);
    assert p == [InOrderIndex(0, h)] + sides;
    assert rp[..|rp| - 1] == Reverse(sides);
  }

  function Hashes(ns: seq<Node>): (r: seq<Hash>)
    ensures |r| == |ns| && forall k :: 0 <= k < |ns| ==> r[k] == ns[k].hash
  {
    seq(|ns|, k requires 0 <= k < |ns| => ns[k].hash)
  }

  /** What `prove` demands of the tree once the index check has passed: the
      leaf count has a root position and the leaf a position (push keeps both
      true), and the stack is not empty. */
  predicate ProvableAt(t: TreeState, i: nat)
  {
    i < t.leavesCount ==> t.leavesCount < U64_MAX && 2 * i <= U64_MAX && t.nodes != []
  }

  /** `prove(i)`: an index past the last leaf is refused; otherwise the root is
      built with its scratch storage and every side node is looked up first
      in the scratch storage, then in storage, failing with `LoadError` on
      the first one found in neither. */
  function ProveSpec(t: TreeState, i: nat): (r: Result<(Hash, seq<Hash>), MerkleTreeError>)
    requires ProvableAt(t, i)
  {
    if i >= t.leavesCount then Err(InvalidProofIndex(i))
    else
      match FoldPeaks(t.nodes)
      case Err(e) => Err(e)
      case Ok(f) =>
        match LookupNodes(t.storage + f.scratch, ProofKeys(t.leavesCount, i))
        case Err(e) => Err(e)
        case Ok(ns) => Ok((f.head.hash, Hashes(ns)))
  }

  /** `prove` refuses exactly the indices at or past the leaf count; its root
      is the root `root` reports, and proof entry `k` is the hash of the node
      at the `k`-th proof key, taken from the scratch storage before storage. */
  lemma ProveResult(t: TreeState, i: nat)
    requires ProvableAt(t, i)
    ensures ProveSpec(t, i).Err? && ProveSpec(t, i).error.InvalidProofIndex? <==> i >= t.leavesCount
    ensures i >= t.leavesCount ==> ProveSpec(t, i) == Err(InvalidProofIndex(i))
    ensures ProveSpec(t, i).Ok? ==>
      RootNodeSpec(t.nodes).Ok? && ProveSpec(t, i).value.0 == RootHash(t.nodes) &&
      var keys := ProofKeys(t.leavesCount, i);
      var f := FoldPeaks(t.nodes).value;
      var proof := ProveSpec(t, i).value.1;
      |proof| == |keys| &&
      forall k :: 0 <= k < |keys| ==>
        (keys[k] in f.scratch && proof[k] == f.scratch[keys[k]].hash) ||
        (keys[k] !in f.scratch && keys[k] in t.storage && proof[k] == t.storage[keys[k]].hash)
  {
    if i < t.leavesCount && FoldPeaks(t.nodes).Err? {
      FoldPeaksErr(t.nodes);
    } else if i < t.leavesCount {
      var f := FoldPeaks(t.nodes).value;
      var r := LookupNodes(t.storage + f.scratch, ProofKeys(t.leavesCount, i));
      LookupNodesCases(t.storage + f.scratch, ProofKeys(t.leavesCount, i));
      if r.Err? {
        var j :| 0 <= j < |ProofKeys(t.leavesCount, i)| && r.error == LoadError(ProofKeys(t.leavesCount, i)[j]);
      }
    }
  }

  /** On a represented tree the index check is the only way `prove` can be
      refused before storage is read: the root is the reference root of the
      leaves, and with one leaf the proof set is empty. */
  lemma ProveRepresents(t: TreeState, leaves: seq<Bytes>, i: nat)
    requires Represents(t, leaves) && i < |leaves|
    ensures ProvableAt(t, i)
    ensures t.nodes != [] && FoldPeaks(t.nodes).Ok?
    ensures |ProofKeys(|leaves|, i)| == 0 <==> |leaves| == 1
    ensures ProveSpec(t, i).Ok? <==>
      forall k :: 0 <= k < |ProofKeys(|leaves|, i)| ==>
        ProofKeys(|leaves|, i)[k] in t.storage + FoldPeaks(t.nodes).value.scratch
    ensures ProveSpec(t, i).Ok? ==> ProveSpec(t, i).value.0 == MerkleRoot(leaves)
    ensures |leaves| == 1 ==> ProveSpec(t, i) == Ok((LeafSum(leaves[0]), []))
  {
    var n := |leaves|;
    assert n < U64_MAX;
    CeilLog2Fits(n);
    PeakNodesShape(leaves, 0, n, CeilLog2(n));
    RootRepresents(t, leaves);
    ProofKeysLeafToRoot(n, i);
    SidesEmpty(n, i);
    LookupNodesCases(t.storage + FoldPeaks(t.nodes).value.scratch, ProofKeys(n, i));
    if n == 1 {
      ConcreteRoots(leaves);
      assert ProofKeys(n, i) == [];
    }
  }

  /** The path from the root position of `n` leaves to leaf `i` has a side
      node exactly when the tree has more than one leaf. */
  lemma SidesEmpty(n: nat, i: nat)
    requires i < n
    ensures i < Pow2(CeilLog2(n + 1))
    ensures Sides(0, CeilLog2(n + 1), i, n) == [] <==> n == 1
  {
    CeilLog2Bounds(n + 1);
    var h := CeilLog2(n + 1);
    if n == 1 {
      assert h == 1 by {
        assert CeilLog2(2) == 1;
      }
      assert Sides(0, 0, i, n) == [];
    } else {
      SidesNonEmpty(0, h, i, n);
    }
  }

  /** A frame holding the leaf `j` and some other leaf has a side node. */
  lemma {:induction false} SidesNonEmpty(first: nat, h: nat, j: nat, m: nat)
    requires first <= j < first + Pow2(h) && j < m
    requires first == 0 && 2 <= m <= Pow2(h)
    ensures Sides(first, h, j, m) != []
    decreases h
  {
    var mid := first + Pow2(h - 1);
    if m <= mid {
      SidesNonEmpty(first, h - 1, j, m);
    }
  }

  // ---------------------------------------------------------------------------
  // Prove on a tree built by pushes
  // ---------------------------------------------------------------------------

  /** Reference root of the side subtree of height `h` from leaf `first`, cut
      at the last leaf. */
  function FrameRoot(leaves: seq<Bytes>, first: nat, h: nat): Hash
    requires first < |leaves|
  {
    var end := if first + Pow2(h) <= |leaves| then first + Pow2(h) else |leaves|;
    MerkleRootAt(leaves[first..end], h)
  }

  /** The reference roots of the side subtrees met from the frame
      (`first`, `h`) down to leaf `j`, from the top down, one for each side
      position `Sides` lists. */
  function SideRoots(leaves: seq<Bytes>, first: nat, h: nat, j: nat): seq<Hash>
    requires first <= j < first + Pow2(h) && j < |leaves|
    decreases h
  {
    if h == 0 then []
    else
      var mid := first + Pow2(h - 1);
      if |leaves| <= mid then SideRoots(leaves, first, h - 1, j)
      else if j < mid then [FrameRoot(leaves, mid, h - 1)] + SideRoots(leaves, first, h - 1, j)
      else [FrameRoot(leaves, first, h - 1)] + SideRoots(leaves, mid, h - 1, j)
  }

  /** Every key is in `m`, and the node under the `p`-th key has hash `hs[p]`. */
  predicate Resolves(m: map<nat, Node>, keys: seq<nat>, hs: seq<Hash>)
  {
    |keys| == |hs| && forall p :: 0 <= p < |keys| ==> keys[p] in m && m[keys[p]].hash == hs[p]
  }

  lemma ResolvesCons(m: map<nat, Node>, k: nat, h: Hash, keys: seq<nat>, hs: seq<Hash>)
    requires k in m && m[k].hash == h && Resolves(m, keys, hs)
    ensures Resolves(m, [k] + keys, [h] + hs)
  {
    forall p | 0 < p < |keys| + 1
      ensures ([k] + keys)[p] == keys[p - 1] && ([h] + hs)[p] == hs[p - 1]
    {
    }
  }

  lemma ResolvesReverse(m: map<nat, Node>, keys: seq<nat>, hs: seq<Hash>)
    requires Resolves(m, keys, hs)
    ensures Resolves(m, Reverse(keys), Reverse(hs))
  {
  }

  /** Looking up keys that resolve gives nodes with the resolved hashes. */
  lemma LookupResolved(m: map<nat, Node>, keys: seq<nat>, hs: seq<Hash>)
    requires Resolves(m, keys, hs)
    ensures LookupNodes(m, keys).Ok? && Hashes(LookupNodes(m, keys).value) == hs
  {
    var ns := seq(|keys|, p requires 0 <= p < |keys| => m[keys[p]]);
    LookupAllFound(m, keys, ns);
    assert Hashes(ns) == hs;
  }

  /** Everything `prove` reads inside the frame (`first`, `h`) is in `m`: a
      full frame is a stored subtree; a partly filled one has, at its
      collapsed position, a node with the root of its leaves, and so have its
      halves. */
  predicate FrameStored(m: map<nat, Node>, leaves: seq<Bytes>, first: nat, h: nat)
    requires first < |leaves|
    decreases h
  {
    if first + Pow2(h) <= |leaves| then SubtreeStored(m, leaves, first, h)
    else
      Collapse(first, h, |leaves|) in m && m[Collapse(first, h, |leaves|)].hash == FrameRoot(leaves, first, h) &&
      (h > 0 ==>
         FrameStored(m, leaves, first, h - 1) &&
         (first + Pow2(h - 1) < |leaves| ==> FrameStored(m, leaves, first + Pow2(h - 1), h - 1)))
  }

  /** The node a stored frame has at its collapsed position carries the
      root of the frame's leaves. */
  lemma FrameTop(m: map<nat, Node>, leaves: seq<Bytes>, first: nat, h: nat)
    requires first < |leaves| && FrameStored(m, leaves, first, h)
    ensures Collapse(first, h, |leaves|) in m && m[Collapse(first, h, |leaves|)].hash == FrameRoot(leaves, first, h)
  {
    if first + Pow2(h) <= |leaves| {
      CollapseFull(first, h, |leaves|);
      SubtreeHashIsMerkleRoot(leaves, first, h);
    }
  }

  lemma FrameHalves(m: map<nat, Node>, leaves: seq<Bytes>, first: nat, h: nat)
    requires first < |leaves| && h > 0 && FrameStored(m, leaves, first, h)
    ensures FrameStored(m, leaves, first, h - 1)
    ensures first + Pow2(h - 1) < |leaves| ==> FrameStored(m, leaves, first + Pow2(h - 1), h - 1)
  {
  }

  /** A frame whose leaves fit its lower half is stored as that half is. */
  lemma FrameLiftStep(m: map<nat, Node>, leaves: seq<Bytes>, first: nat, h: nat)
    requires first < |leaves| <= first + Pow2(h) && FrameStored(m, leaves, first, h)
    ensures FrameStored(m, leaves, first, h + 1)
  {
    FrameTop(m, leaves, first, h);
    var end := |leaves|;
    assert FrameRoot(leaves, first, h + 1) == MerkleRootAt(leaves[first..end], h);
  }

  lemma {:induction false} FrameLift(m: map<nat, Node>, leaves: seq<Bytes>, h: nat, h': nat)
    requires 0 < |leaves| <= Pow2(h) && h <= h' && FrameStored(m, leaves, 0, h)
    ensures FrameStored(m, leaves, 0, h')
    decreases h' - h
  {
    if h < h' {
      FrameLiftStep(m, leaves, 0, h);
      FrameLift(m, leaves, h + 1, h');
    }
  }

  /** The side positions of a stored frame resolve to the side roots. */
  lemma {:induction false} SidesResolve(m: map<nat, Node>, leaves: seq<Bytes>, first: nat, h: nat, j: nat)
    requires first <= j < first + Pow2(h) && j < |leaves| && FrameStored(m, leaves, first, h)
    ensures Resolves(m, Sides(first, h, j, |leaves|), SideRoots(leaves, first, h, j))
    decreases h, 1
  {
    if h > 0 {
      var mid := first + Pow2(h - 1);
      if |leaves| <= mid {
        SidesResolveLower(m, leaves, first, h, j);
      } else if j < mid {
        SidesResolveLeft(m, leaves, first, h, j, mid);
      } else {
        SidesResolveRight(m, leaves, first, h, j, mid);
      }
    }
  }

  lemma {:induction false} SidesResolveLower(m: map<nat, Node>, leaves: seq<Bytes>, first: nat, h: nat, j: nat)
    requires h > 0 && first <= j < first + Pow2(h) && j < |leaves| <= first + Pow2(h - 1)
    requires FrameStored(m, leaves, first, h)
    ensures Resolves(m, Sides(first, h, j, |leaves|), SideRoots(leaves, first, h, j))
    decreases h, 0
  {
    FrameHalves(m, leaves, first, h);
    SidesResolve(m, leaves, first, h - 1, j);
    SidesEmptyHalf(m, leaves, first, h, j);
  }

  lemma {:induction false} SidesResolveLeft(m: map<nat, Node>, leaves: seq<Bytes>, first: nat, h: nat, j: nat, mid: nat)
    requires h > 0 && mid == first + Pow2(h - 1) && first <= j < mid < |leaves|
    requires FrameStored(m, leaves, first, h)
    ensures Resolves(m, Sides(first, h, j, |leaves|), SideRoots(leaves, first, h, j))
    decreases h, 0
  {
    FrameHalves(m, leaves, first, h);
    FrameTop(m, leaves, mid, h - 1);
    SidesResolve(m, leaves, first, h - 1, j);
    SidesLeft(m, leaves, first, h, j, mid);
  }

  lemma {:induction false} SidesResolveRight(m: map<nat, Node>, leaves: seq<Bytes>, first: nat, h: nat, j: nat, mid: nat)
    requires h > 0 && mid == first + Pow2(h - 1) && mid <= j < |leaves| && j < first + Pow2(h)
    requires FrameStored(m, leaves, first, h)
    ensures Resolves(m, Sides(first, h, j, |leaves|), SideRoots(leaves, first, h, j))
    decreases h, 0
  {
    FrameHalves(m, leaves, first, h);
    FrameTop(m, leaves, first, h - 1);
    Pow2Halves(h);
    SidesResolve(m, leaves, mid, h - 1, j);
    SidesRight(m, leaves, first, h, j, mid);
  }

  /** With no leaves past the lower half, a frame's sides are its lower
      half's. */
  lemma SidesEmptyHalf(m: map<nat, Node>, leaves: seq<Bytes>, first: nat, h: nat, j: nat)
    requires h > 0 && first <= j < first + Pow2(h) && j < |leaves| <= first + Pow2(h - 1)
    requires Resolves(m, Sides(first, h - 1, j, |leaves|), SideRoots(leaves, first, h - 1, j))
    ensures Resolves(m, Sides(first, h, j, |leaves|), SideRoots(leaves, first, h, j))
  {
  }

  /** For a leaf in the lower half, the upper half is the topmost side. */
  lemma SidesLeft(m: map<nat, Node>, leaves: seq<Bytes>, first: nat, h: nat, j: nat, mid: nat)
    requires h > 0 && mid == first + Pow2(h - 1) && first <= j < mid < |leaves|
    requires Resolves(m, Sides(first, h - 1, j, |leaves|), SideRoots(leaves, first, h - 1, j))
    requires Collapse(mid, h - 1, |leaves|) in m && m[Collapse(mid, h - 1, |leaves|)].hash == FrameRoot(leaves, mid, h - 1)
    ensures Resolves(m, Sides(first, h, j, |leaves|), SideRoots(leaves, first, h, j))
  {
    ResolvesCons(m, Collapse(mid, h - 1, |leaves|), FrameRoot(leaves, mid, h - 1),
                 Sides(first, h - 1, j, |leaves|), SideRoots(leaves, first, h - 1, j));
  }

  /** For a leaf in the upper half, the lower half is the topmost side. */
  lemma SidesRight(m: map<nat, Node>, leaves: seq<Bytes>, first: nat, h: nat, j: nat, mid: nat)
    requires h > 0 && mid == first + Pow2(h - 1) && mid <= j < |leaves| && j < mid + Pow2(h - 1)
    requires Resolves(m, Sides(mid, h - 1, j, |leaves|), SideRoots(leaves, mid, h - 1, j))
    requires Collapse(first, h - 1, |leaves|) in m && m[Collapse(first, h - 1, |leaves|)].hash == FrameRoot(leaves, first, h - 1)
    ensures Resolves(m, Sides(first, h, j, |leaves|), SideRoots(leaves, first, h, j))
  {
    ResolvesCons(m, Collapse(first, h - 1, |leaves|), FrameRoot(leaves, first, h - 1),
                 Sides(mid, h - 1, j, |leaves|), SideRoots(leaves, mid, h - 1, j));
  }

  /** Folding a peak below a foldable stack writes the new head to the
      scratch storage, at the parent position of the peak. */
  lemma FoldConsScratch(a: Node, rest: seq<Node>)
    requires |rest| >= 1 && FoldPeaks(rest).Ok? && a.key + Pow2(a.height) <= U64_MAX
    ensures FoldPeaks([a] + rest).Ok?
    ensures var f := FoldPeaks([a] + rest).value;
      f.head.key == a.key + Pow2(a.height) && f.scratch == FoldPeaks(rest).value.scratch[f.head.key := f.head]
  {
    assert ([a] + rest)[1..] == rest;
  }

  /** Every key of `scratch` is at least `lo`. */
  predicate KeysFrom(scratch: map<nat, Node>, lo: nat)
  {
    forall k :: k in scratch ==> lo <= k
  }

  /** Every key `root_node` writes to the scratch storage for the peaks of
      the leaves from `first` on lies past `2 * first`. */
  lemma {:induction false} FoldScratchAbove(leaves: seq<Bytes>, first: nat, c: nat, h: nat)
    requires 0 < c <= Pow2(h) && first + c <= |leaves| && 2 * (first + Pow2(h)) <= U64_MAX + 1
    ensures PeakNodes(leaves, first, c, h) != [] && FoldPeaks(PeakNodes(leaves, first, c, h)).Ok?
    ensures KeysFrom(FoldPeaks(PeakNodes(leaves, first, c, h)).value.scratch, 2 * first + 1)
    decreases h
  {
    FoldPeakNodes(leaves, first, c, h);
    if c == Pow2(h) {
    } else if c > Pow2(h - 1) {
      UpperHalfBounds(first, c, h, |leaves|);
      FoldScratchAbove(leaves, first + Pow2(h - 1), c - Pow2(h - 1), h - 1);
      PeakNodesUpper(leaves, first, c, h);
      FoldConsScratch(SubtreeNode(leaves, first, h - 1), PeakNodes(leaves, first + Pow2(h - 1), c - Pow2(h - 1), h - 1));
    } else {
      PeakNodesLower(leaves, first, c, h);
      FoldScratchAbove(leaves, first, c, h - 1);
    }
  }

  /** `m` holds the scratch storage over `storage`, from key `lo` on. */
  predicate Overlays(m: map<nat, Node>, storage: map<nat, Node>, scratch: map<nat, Node>, lo: nat)
  {
    (forall k :: k in scratch ==> k in m && m[k] == scratch[k]) &&
    (forall k :: lo <= k && k !in scratch && k in storage ==> k in m && m[k] == storage[k])
  }

  /** The first tile of a stored tiling is a stored subtree, and the rest is
      still a stored tiling. */
  lemma {:induction false} TilesStoredFront(storage: map<nat, Node>, leaves: seq<Bytes>, a: Node, rest: seq<Node>, start: nat, end: nat)
    requires Tiles(leaves, [a] + rest, start, end) && TilesStored(storage, leaves, [a] + rest, end)
    ensures start + Pow2(a.height) <= |leaves|
    ensures SubtreeStored(storage, leaves, start, a.height) && TilesStored(storage, leaves, rest, end)
    decreases |rest|
  {
    var s := [a] + rest;
    if rest == [] {
      assert s[..|s| - 1] == [];
    } else {
      var t := rest[|rest| - 1];
      assert s[|s| - 1] == t && s[..|s| - 1] == [a] + rest[..|rest| - 1];
      TilesStoredFront(storage, leaves, a, rest[..|rest| - 1], start, end - Pow2(t.height));
    }
  }

  /** Dropping from the scratch storage a key below `lo'` keeps the overlay
      from `lo'` on. */
  lemma OverlaysDrop(m: map<nat, Node>, storage: map<nat, Node>, scratch: map<nat, Node>, k: nat, v: Node, lo: nat, lo': nat)
    requires Overlays(m, storage, scratch[k := v], lo) && lo <= k < lo'
    requires KeysFrom(scratch, lo')
    ensures Overlays(m, storage, scratch, lo')
  {
  }

  /** Below the lowest scratch key, the overlay agrees with the storage. */
  lemma OverlaysKeep(m: map<nat, Node>, storage: map<nat, Node>, scratch: map<nat, Node>, lo: nat, hi: nat)
    requires Overlays(m, storage, scratch, lo) && KeysFrom(scratch, hi)
    ensures forall k :: lo <= k < hi && k in storage ==> k in m && m[k] == storage[k]
  {
  }

  /** The fold of the peaks of a frame filled past its lower half: the left
      half is the first peak, and the new head, at the frame's own position,
      is written over the scratch storage of the right half's fold. */
  lemma UpperFold(leaves: seq<Bytes>, first: nat, c: nat, h: nat)
    requires h > 0 && Pow2(h - 1) < c < Pow2(h) && first + c <= |leaves| && 2 * (first + Pow2(h)) <= U64_MAX + 1
    ensures 0 < c - Pow2(h - 1) <= Pow2(h - 1) && first + Pow2(h - 1) + (c - Pow2(h - 1)) <= |leaves|
    ensures PeakNodes(leaves, first, c, h)
         == [SubtreeNode(leaves, first, h - 1)] + PeakNodes(leaves, first + Pow2(h - 1), c - Pow2(h - 1), h - 1)
    ensures PeakNodes(leaves, first + Pow2(h - 1), c - Pow2(h - 1), h - 1) != []
    ensures FoldPeaks(PeakNodes(leaves, first + Pow2(h - 1), c - Pow2(h - 1), h - 1)).Ok?
    ensures KeysFrom(FoldPeaks(PeakNodes(leaves, first + Pow2(h - 1), c - Pow2(h - 1), h - 1)).value.scratch,
                     2 * (first + Pow2(h - 1)) + 1)
    ensures PeakNodes(leaves, first, c, h) != [] && FoldPeaks(PeakNodes(leaves, first, c, h)).Ok?
    ensures var f := FoldPeaks(PeakNodes(leaves, first, c, h)).value;
      f.head.key == InOrderIndex(first, h) && f.head.hash == MerkleRootAt(leaves[first..first + c], h) &&
      f.scratch == FoldPeaks(PeakNodes(leaves, first + Pow2(h - 1), c - Pow2(h - 1), h - 1)).value.scratch[f.head.key := f.head]
  {
    UpperHalfBounds(first, c, h, |leaves|);
    FoldScratchAbove(leaves, first + Pow2(h - 1), c - Pow2(h - 1), h - 1);
    PeakNodesUpper(leaves, first, c, h);
    FoldConsScratch(SubtreeNode(leaves, first, h - 1), PeakNodes(leaves, first + Pow2(h - 1), c - Pow2(h - 1), h - 1));
    FoldPeakNodes(leaves, first, c, h);
    Pow2Halves(h);
  }

  /** The hypotheses under which the frame of the last `c` leaves, from
      `first`, is stored in `m`: the storage holds the subtrees of the
      frame's peaks, and `m` lays the scratch storage of their fold over it. */
  predicate PeaksOverlaid(m: map<nat, Node>, storage: map<nat, Node>, leaves: seq<Bytes>, first: nat, c: nat, h: nat)
  {
    0 < c <= Pow2(h) && first + c == |leaves| && 2 * (first + Pow2(h)) <= U64_MAX + 1 &&
    TilesStored(storage, leaves, PeakNodes(leaves, first, c, h), first + c) &&
    PeakNodes(leaves, first, c, h) != [] && FoldPeaks(PeakNodes(leaves, first, c, h)).Ok? &&
    Overlays(m, storage, FoldPeaks(PeakNodes(leaves, first, c, h)).value.scratch, 2 * first)
  }

  lemma {:induction false} FrameStoredFromPeaks(m: map<nat, Node>, storage: map<nat, Node>, leaves: seq<Bytes>, first: nat, c: nat, h: nat)
    requires 0 < c <= Pow2(h) && first + c == |leaves| && PeaksOverlaid(m, storage, leaves, first, c, h)
    ensures FrameStored(m, leaves, first, h)
    decreases h, 1
  {
    if c == Pow2(h) {
      FrameFull(m, storage, leaves, first, h);
    } else {
      assert h > 0;
      if c > Pow2(h - 1) {
        FrameStoredUpper(m, storage, leaves, first, c, h);
      } else {
        FrameStoredLower(m, storage, leaves, first, c, h);
      }
    }
  }

  lemma {:induction false} FrameStoredUpper(m: map<nat, Node>, storage: map<nat, Node>, leaves: seq<Bytes>, first: nat, c: nat, h: nat)
    requires h > 0 && Pow2(h - 1) < c < Pow2(h) && first + c == |leaves| && PeaksOverlaid(m, storage, leaves, first, c, h)
    ensures FrameStored(m, leaves, first, h)
    decreases h, 0
  {
    UpperRest(m, storage, leaves, first, c, h);
    FrameStoredFromPeaks(m, storage, leaves, first + Pow2(h - 1), c - Pow2(h - 1), h - 1);
    UpperFrame(m, storage, leaves, first, c, h);
  }

  lemma {:induction false} FrameStoredLower(m: map<nat, Node>, storage: map<nat, Node>, leaves: seq<Bytes>, first: nat, c: nat, h: nat)
    requires h > 0 && 0 < c <= Pow2(h - 1) && first + c == |leaves| && PeaksOverlaid(m, storage, leaves, first, c, h)
    ensures FrameStored(m, leaves, first, h)
    decreases h, 0
  {
    LowerPeaks(m, storage, leaves, first, c, h);
    FrameStoredFromPeaks(m, storage, leaves, first, c, h - 1);
    LowerFrame(m, storage, leaves, first, c, h);
  }

  /** A full frame is one peak, whose fold writes nothing to the scratch
      storage. */
  lemma FrameFull(m: map<nat, Node>, storage: map<nat, Node>, leaves: seq<Bytes>, first: nat, h: nat)
    requires PeaksOverlaid(m, storage, leaves, first, Pow2(h), h)
    ensures FrameStored(m, leaves, first, h)
  {
    var s := PeakNodes(leaves, first, Pow2(h), h);
    assert s == [SubtreeNode(leaves, first, h)];
    assert s[..0] == [];
    assert SubtreeStored(storage, leaves, first, h);
    SubtreeStoredAgree(storage, m, leaves, first, h);
  }

  /** A frame filled at most to its lower half has the peaks of that half. */
  lemma LowerPeaks(m: map<nat, Node>, storage: map<nat, Node>, leaves: seq<Bytes>, first: nat, c: nat, h: nat)
    requires h > 0 && c <= Pow2(h - 1) && PeaksOverlaid(m, storage, leaves, first, c, h)
    ensures PeaksOverlaid(m, storage, leaves, first, c, h - 1)
  {
    PeakNodesLower(leaves, first, c, h);
  }

  /** A frame filled at most to its lower half is stored as that half is. */
  lemma LowerFrame(m: map<nat, Node>, storage: map<nat, Node>, leaves: seq<Bytes>, first: nat, c: nat, h: nat)
    requires h > 0 && c <= Pow2(h - 1) && PeaksOverlaid(m, storage, leaves, first, c, h)
    requires FrameStored(m, leaves, first, h - 1)
    ensures FrameStored(m, leaves, first, h)
  {
    FrameLiftStep(m, leaves, first, h - 1);
  }

  /** A frame filled past its lower half is stored once its right half is. */
  lemma UpperFrame(m: map<nat, Node>, storage: map<nat, Node>, leaves: seq<Bytes>, first: nat, c: nat, h: nat)
    requires h > 0 && Pow2(h - 1) < c < Pow2(h) && PeaksOverlaid(m, storage, leaves, first, c, h)
    requires first + Pow2(h - 1) < |leaves| && FrameStored(m, leaves, first + Pow2(h - 1), h - 1)
    ensures FrameStored(m, leaves, first, h)
  {
    UpperLeftAndTop(m, storage, leaves, first, c, h);
    FrameUpper(m, leaves, first, c, h);
  }

  /** The right half of a frame filled past its lower half carries the
      recursion's hypotheses. */
  lemma UpperRest(m: map<nat, Node>, storage: map<nat, Node>, leaves: seq<Bytes>, first: nat, c: nat, h: nat)
    requires h > 0 && Pow2(h - 1) < c < Pow2(h) && PeaksOverlaid(m, storage, leaves, first, c, h)
    ensures 0 < c - Pow2(h - 1) <= Pow2(h - 1) && first + Pow2(h - 1) + (c - Pow2(h - 1)) == |leaves|
    ensures first + Pow2(h - 1) < |leaves|
    ensures PeaksOverlaid(m, storage, leaves, first + Pow2(h - 1), c - Pow2(h - 1), h - 1)
  {
    UpperHalfBounds(first, c, h, |leaves|);
    UpperTiles(storage, leaves, first, c, h);
    UpperOverlay(m, storage, leaves, first, c, h);
  }

  /** The peaks of a frame filled past its lower half are its left half and
      the peaks of its right half. */
  lemma UpperTiles(storage: map<nat, Node>, leaves: seq<Bytes>, first: nat, c: nat, h: nat)
    requires h > 0 && Pow2(h - 1) < c < Pow2(h) && first + c <= |leaves|
    requires TilesStored(storage, leaves, PeakNodes(leaves, first, c, h), first + c)
    ensures first + Pow2(h - 1) <= |leaves| && SubtreeStored(storage, leaves, first, h - 1)
    ensures TilesStored(storage, leaves, PeakNodes(leaves, first + Pow2(h - 1), c - Pow2(h - 1), h - 1), first + c)
  {
    PeakNodesUpper(leaves, first, c, h);
    PeakNodesTile(leaves, first, c, h);
    TilesStoredFront(storage, leaves, SubtreeNode(leaves, first, h - 1),
                     PeakNodes(leaves, first + Pow2(h - 1), c - Pow2(h - 1), h - 1), first, first + c);
  }

  /** `m` still overlays the scratch storage of the right half's fold, from
      the right half's first key on. */
  lemma UpperOverlay(m: map<nat, Node>, storage: map<nat, Node>, leaves: seq<Bytes>, first: nat, c: nat, h: nat)
    requires h > 0 && Pow2(h - 1) < c < Pow2(h) && first + c <= |leaves| && 2 * (first + Pow2(h)) <= U64_MAX + 1
    requires PeakNodes(leaves, first, c, h) != [] && FoldPeaks(PeakNodes(leaves, first, c, h)).Ok?
    requires Overlays(m, storage, FoldPeaks(PeakNodes(leaves, first, c, h)).value.scratch, 2 * first)
    ensures PeakNodes(leaves, first + Pow2(h - 1), c - Pow2(h - 1), h - 1) != []
    ensures FoldPeaks(PeakNodes(leaves, first + Pow2(h - 1), c - Pow2(h - 1), h - 1)).Ok?
    ensures Overlays(m, storage, FoldPeaks(PeakNodes(leaves, first + Pow2(h - 1), c - Pow2(h - 1), h - 1)).value.scratch,
                     2 * (first + Pow2(h - 1)))
  {
    UpperFold(leaves, first, c, h);
    var f := FoldPeaks(PeakNodes(leaves, first, c, h)).value;
    var g := FoldPeaks(PeakNodes(leaves, first + Pow2(h - 1), c - Pow2(h - 1), h - 1)).value;
    Pow2Halves(h);
    OverlaysDrop(m, storage, g.scratch, f.head.key, f.head, 2 * first, 2 * (first + Pow2(h - 1)));
  }

  /** The frame's own position holds the head of the fold, the root of the
      frame's leaves, and below it `m` agrees with the storage. */
  lemma UpperTop(m: map<nat, Node>, storage: map<nat, Node>, leaves: seq<Bytes>, first: nat, c: nat, h: nat)
    requires h > 0 && Pow2(h - 1) < c < Pow2(h) && first + c <= |leaves| && 2 * (first + Pow2(h)) <= U64_MAX + 1
    requires PeakNodes(leaves, first, c, h) != [] && FoldPeaks(PeakNodes(leaves, first, c, h)).Ok?
    requires Overlays(m, storage, FoldPeaks(PeakNodes(leaves, first, c, h)).value.scratch, 2 * first)
    ensures InOrderIndex(first, h) in m && m[InOrderIndex(first, h)].hash == MerkleRootAt(leaves[first..first + c], h)
    ensures forall k :: 2 * first <= k < InOrderIndex(first, h) && k in storage ==> k in m && m[k] == storage[k]
  {
    UpperFold(leaves, first, c, h);
    var f := FoldPeaks(PeakNodes(leaves, first, c, h)).value;
    var g := FoldPeaks(PeakNodes(leaves, first + Pow2(h - 1), c - Pow2(h - 1), h - 1)).value;
    Pow2Halves(h);
    assert KeysFrom(f.scratch, f.head.key);
    OverlaysKeep(m, storage, f.scratch, 2 * first, f.head.key);
  }

  /** The left half of a frame filled past its lower half is a stored
      subtree in `m`, and the frame's own position holds the root of its
      leaves. */
  lemma UpperLeftAndTop(m: map<nat, Node>, storage: map<nat, Node>, leaves: seq<Bytes>, first: nat, c: nat, h: nat)
    requires h > 0 && Pow2(h - 1) < c < Pow2(h) && PeaksOverlaid(m, storage, leaves, first, c, h)
    ensures first + Pow2(h - 1) <= |leaves| && SubtreeStored(m, leaves, first, h - 1)
    ensures InOrderIndex(first, h) in m && m[InOrderIndex(first, h)].hash == MerkleRootAt(leaves[first..first + c], h)
  {
    UpperTiles(storage, leaves, first, c, h);
    UpperTop(m, storage, leaves, first, c, h);
    Pow2Halves(h);
    SubtreeStoredAgree(storage, m, leaves, first, h - 1);
  }

  /** A frame filled past its lower half is stored once its left half is a
      stored subtree, its right half a stored frame, and its own position
      holds the root of its leaves. */
  lemma FrameUpper(m: map<nat, Node>, leaves: seq<Bytes>, first: nat, c: nat, h: nat)
    requires h > 0 && Pow2(h - 1) < c < Pow2(h) && first + c == |leaves|
    requires SubtreeStored(m, leaves, first, h - 1) && FrameStored(m, leaves, first + Pow2(h - 1), h - 1)
    requires InOrderIndex(first, h) in m && m[InOrderIndex(first, h)].hash == MerkleRootAt(leaves[first..first + c], h)
    ensures FrameStored(m, leaves, first, h)
  {
    assert Collapse(first, h, |leaves|) == InOrderIndex(first, h);
    assert leaves[first..first + c] == leaves[first..|leaves|];
  }

  /** On a tree built by pushes whose subtrees are all stored, `prove(i)`
      succeeds: the root is the reference root of the leaves, and proof entry
      `k` is the reference root of the `k`-th side subtree on the path from
      leaf `i` up to the root. */
  lemma ProveComplete(t: TreeState, leaves: seq<Bytes>, i: nat)
    requires Represents(t, leaves) && SubtreesStored(t, leaves) && i < |leaves|
    ensures ProvableAt(t, i)
    ensures i < Pow2(CeilLog2(|leaves| + 1))
    ensures ProveSpec(t, i) == Ok((MerkleRoot(leaves), Reverse(SideRoots(leaves, 0, CeilLog2(|leaves| + 1), i))))
  {
    ProofKeysResolve(t, leaves, i);
    RootRepresents(t, leaves);
    ProveResolved(t, i, MerkleRoot(leaves), Reverse(SideRoots(leaves, 0, CeilLog2(|leaves| + 1), i)));
  }

  /** When the peaks fold to `root` and the proof keys resolve to `hs`,
      `prove(i)` returns exactly those. */
  lemma ProveResolved(t: TreeState, i: nat, root: Hash, hs: seq<Hash>)
    requires i < t.leavesCount < U64_MAX && 2 * i <= U64_MAX && t.nodes != []
    requires RootNodeSpec(t.nodes).Ok? && RootHash(t.nodes) == root
    requires FoldPeaks(t.nodes).Ok? && Resolves(t.storage + FoldPeaks(t.nodes).value.scratch, ProofKeys(t.leavesCount, i), hs)
    ensures ProvableAt(t, i) && ProveSpec(t, i) == Ok((root, hs))
  {
    LookupResolved(t.storage + FoldPeaks(t.nodes).value.scratch, ProofKeys(t.leavesCount, i), hs);
  }

  /** Every proof key of a tree built by pushes resolves, in the storage
      overlaid with the scratch storage, to the matching side root. */
  lemma ProofKeysResolve(t: TreeState, leaves: seq<Bytes>, i: nat)
    requires Represents(t, leaves) && SubtreesStored(t, leaves) && i < |leaves|
    ensures |leaves| < U64_MAX && i < Pow2(CeilLog2(|leaves| + 1))
    ensures t.nodes != [] && FoldPeaks(t.nodes).Ok?
    ensures Resolves(t.storage + FoldPeaks(t.nodes).value.scratch, ProofKeys(|leaves|, i),
                     Reverse(SideRoots(leaves, 0, CeilLog2(|leaves| + 1), i)))
  {
    assert |leaves| < U64_MAX;
    TreeFrameStored(t, leaves);
    FrameProofKeys(t.storage + FoldPeaks(t.nodes).value.scratch, leaves, i);
  }

  /** In a map that holds the whole frame of `leaves`, the proof keys of leaf
      `i` resolve to its side roots from the leaf up. */
  lemma FrameProofKeys(m: map<nat, Node>, leaves: seq<Bytes>, i: nat)
    requires i < |leaves| < U64_MAX && |leaves| <= Pow2(CeilLog2(|leaves| + 1))
    requires FrameStored(m, leaves, 0, CeilLog2(|leaves| + 1))
    ensures i < Pow2(CeilLog2(|leaves| + 1))
    ensures Resolves(m, ProofKeys(|leaves|, i), Reverse(SideRoots(leaves, 0, CeilLog2(|leaves| + 1), i)))
  {
    var n := |leaves|;
    var top := CeilLog2(n + 1);
    ProofKeysLeafToRoot(n, i);
    SidesResolve(m, leaves, 0, top, i);
    ResolvesReverse(m, Sides(0, top, i, n), SideRoots(leaves, 0, top, i));
  }

  /** Everything `prove` reads for a tree built by pushes is in its storage
      overlaid with the scratch storage of `root_node`. */
  lemma TreeFrameStored(t: TreeState, leaves: seq<Bytes>)
    requires Represents(t, leaves) && SubtreesStored(t, leaves) && 0 < |leaves|
    ensures t.nodes != [] && FoldPeaks(t.nodes).Ok?
    ensures |leaves| <= Pow2(CeilLog2(|leaves| + 1))
    ensures FrameStored(t.storage + FoldPeaks(t.nodes).value.scratch, leaves, 0, CeilLog2(|leaves| + 1))
  {
    var n := |leaves|;
    var h := CeilLog2(n);
    var top := CeilLog2(n + 1);
    TreePeaksOverlaid(t, leaves);
    CeilLog2Bounds(n + 1);
    CeilLog2Least(n, top);
    var m := t.storage + FoldPeaks(t.nodes).value.scratch;
    FrameStoredFromPeaks(m, t.storage, leaves, 0, n, h);
    FrameLift(m, leaves, h, top);
  }

  /** The peaks of a tree built by pushes, with their scratch storage laid
      over the tree's storage, meet the bundle the frame argument starts from. */
  lemma TreePeaksOverlaid(t: TreeState, leaves: seq<Bytes>)
    requires Represents(t, leaves) && SubtreesStored(t, leaves) && 0 < |leaves|
    ensures |leaves| <= Pow2(CeilLog2(|leaves|))
    ensures t.nodes != [] && FoldPeaks(t.nodes).Ok?
    ensures PeaksOverlaid(t.storage + FoldPeaks(t.nodes).value.scratch, t.storage, leaves, 0, |leaves|, CeilLog2(|leaves|))
  {
    var n := |leaves|;
    var h := CeilLog2(n);
    CeilLog2Fits(n);
    PeakNodesShape(leaves, 0, n, h);
    PeakHeightBound(n);
    FoldPeakNodes(leaves, 0, n, h);
    assert t.nodes == PeakNodes(leaves, 0, n, h);
    OverlaysUnion(t.storage, FoldPeaks(t.nodes).value.scratch);
  }

  /** A map laid over storage overlays it everywhere. */
  lemma OverlaysUnion(storage: map<nat, Node>, scratch: map<nat, Node>)
    ensures Overlays(storage + scratch, storage, scratch, 0)
  {
  }

  /** `prove(i)` on the tree that pushing `ds` onto an empty stack over any
      storage builds returns the reference root of `ds` and, from the leaf
      up, the reference roots of the side subtrees of leaf `i`. */
  lemma PushAllProve(storage: map<nat, Node>, ds: seq<Bytes>, i: nat)
    requires i < |ds| <= MAX_LEAVES
    ensures ProvableAt(PushAll(TreeState(storage, [], 0), ds), i)
    ensures i < Pow2(CeilLog2(|ds| + 1))
    ensures ProveSpec(PushAll(TreeState(storage, [], 0), ds), i)
         == Ok((MerkleRoot(ds), Reverse(SideRoots(ds, 0, CeilLog2(|ds| + 1), i))))
  {
    var t := TreeState(storage, [], 0);
    EmptyTreeRoot(storage);
    assert SubtreesStored(t, []);
    PushAllRepresents(t, [], ds);
    PushAllStored(t, [], ds);
    assert [] + ds == ds;
    ProveComplete(PushAll(t, ds), ds, i);
  }

  // ---------------------------------------------------------------------------
  // Reset
  // ---------------------------------------------------------------------------

  /** `reset` as written: only the node stack is cleared. */
  function ResetAsWrittenSpec(t: TreeState): TreeState
  {
    t.(nodes := [])
  }

  /** `reset` as its test names it, reverting the tree to the empty state:
      the stack is cleared and the leaf count goes back to zero. Storage is
      kept, as `new` over the same storage would keep it. */
  function ResetSpec(t: TreeState): TreeState
  {
    TreeState(t.storage, [], 0)
  }

  /** `reset` as written leaves a tree that no leaf list represents: it keeps
      its leaf count, so `leaves_count()` still reports the old leaves while
      `root()` reports the empty root, `prove(0)` passes the index check and
      then finds no root node, and the next pushed leaf is leaf `n`, stored at
      key `2n` rather than `0`. */
  lemma ResetAsWrittenKeepsCount(t: TreeState, leaves: seq<Bytes>, data: Bytes)
    requires Represents(t, leaves) && 0 < |leaves| < MAX_LEAVES
    ensures var t' := ResetAsWrittenSpec(t);
      RootHash(t'.nodes) == EmptySum && t'.leavesCount == |leaves| &&
      (forall other :: !Represents(t', other)) &&
      !ProvableAt(t', 0) &&
      PushSpec(t', data).state.leavesCount == |leaves| + 1 &&
      PushSpec(t', data).state.nodes == [Node(0, 2 * |leaves|, LeafSum(data))]
  {
    Pow2At63();
    var t' := ResetAsWrittenSpec(t);
    forall other | Represents(t', other)
      ensures false
    {
      PeaksNonEmpty(other);
    }
  }

  /** Every non-empty leaf list has at least one peak. */
  lemma PeaksNonEmpty(leaves: seq<Bytes>)
    requires 0 < |leaves|
    ensures Peaks(leaves) != []
  {
    CeilLog2Fits(|leaves|);
    PeakNodesShape(leaves, 0, |leaves|, CeilLog2(|leaves|));
  }

  /** The corrected `reset` leaves the empty tree over the same storage. */
  lemma ResetRepresentsEmpty(t: TreeState)
    ensures Represents(ResetSpec(t), [])
    ensures RootHash(ResetSpec(t).nodes) == EmptySum
    ensures ResetSpec(t) == TreeState(t.storage, [], 0)
  {
    EmptyTreeRoot(t.storage);
  }

  /** Push every datum in turn, ignoring the outcomes. */
  function PushAll(t: TreeState, ds: seq<Bytes>): TreeState
    decreases |ds|
  {
    if ds == [] then t else PushAll(PushSpec(t, ds[0]).state, ds[1..])
  }

  /** Pushing data onto a represented tree represents the longer leaf list. */
  lemma {:induction false} PushAllRepresents(t: TreeState, leaves: seq<Bytes>, ds: seq<Bytes>)
    requires Represents(t, leaves) && |leaves| + |ds| <= MAX_LEAVES
    ensures Represents(PushAll(t, ds), leaves + ds)
    decreases |ds|
  {
    if ds != [] {
      var more := leaves + [ds[0]];
      assert more + ds[1..] == leaves + ds;
      PushRepresents(t, leaves, ds[0]);
      PushAllRepresents(PushSpec(t, ds[0]).state, more, ds[1..]);
      assert PushAll(t, ds) == PushAll(PushSpec(t, ds[0]).state, ds[1..]);
    } else {
      assert leaves + ds == leaves;
    }
  }

  /** Pushing data onto an empty tree gives the reference root of that data. */
  lemma PushAllRoot(t: TreeState, ds: seq<Bytes>)
    requires Represents(t, []) && |ds| <= MAX_LEAVES
    ensures RootNodeSpec(PushAll(t, ds).nodes).Ok?
    ensures RootHash(PushAll(t, ds).nodes) == MerkleRoot(ds)
  {
    PushAllRepresents(t, [], ds);
    assert [] + ds == ds;
    RootRepresents(PushAll(t, ds), ds);
  }

  /** After the corrected `reset`, pushing data gives the root a fresh tree
      over the same data has: the reference root of that data. */
  lemma ResetThenPush(t: TreeState, ds: seq<Bytes>, empty: map<nat, Node>)
    requires |ds| <= MAX_LEAVES
    ensures RootNodeSpec(PushAll(ResetSpec(t), ds).nodes).Ok?
    ensures RootNodeSpec(PushAll(TreeState(empty, [], 0), ds).nodes).Ok?
    ensures RootHash(PushAll(ResetSpec(t), ds).nodes) == MerkleRoot(ds)
    ensures RootHash(PushAll(ResetSpec(t), ds).nodes) == RootHash(PushAll(TreeState(empty, [], 0), ds).nodes)
  {
    ResetRepresentsEmpty(t);
    EmptyTreeRoot(empty);
    PushAllRoot(ResetSpec(t), ds);
    PushAllRoot(TreeState(empty, [], 0), ds);
  }

  // ---------------------------------------------------------------------------
  // The tree object
  // ---------------------------------------------------------------------------

  /** `FoldPeaks` fails as soon as any suffix of the stack fails. */
  lemma {:induction false} FoldPeaksErrUp(s: seq<Node>, k: nat)
    requires k < |s| && FoldPeaks(s[k..]).Err?
    ensures FoldPeaks(s) == Err(TooLarge)
    decreases k
  {
    FoldPeaksErr(s[k..]);
    if k > 0 {
      assert s[k - 1..][1..] == s[k..];
      FoldPeaksErrUp(s, k - 1);
    } else {
      assert s[0..] == s;
    }
  }

  lemma {:induction false} FoldPeaksErr(s: seq<Node>)
    requires |s| >= 1 && FoldPeaks(s).Err?
    ensures FoldPeaks(s) == Err(TooLarge)
    decreases |s|
  {
    if |s| > 1 && FoldPeaks(s[1..]).Err? {
      FoldPeaksErr(s[1..]);
    }
  }

  /** A `MerkleTree` over an in-memory node storage. */
  class MerkleTree {
    var storage: map<nat, Node>
    var nodes: seq<Node>
    var leavesCount: nat

    function State(): TreeState
      reads this
    {
      TreeState(storage, nodes, leavesCount)
    }

    /** `new`: an empty tree over `storage`. */
    constructor(storage: map<nat, Node>)
      ensures State() == TreeState(storage, [], 0)
    {
      this.storage := storage;
      nodes := [];
      leavesCount := 0;
    }

    /** A tree whose storage, stack and leaf count are those of `s`. */
    constructor FromState(s: TreeState)
      ensures State() == s
    {
      storage := s.storage;
      nodes := s.nodes;
      leavesCount := s.leavesCount;
    }

    /** `leaves_count`. */
    method LeavesCount() returns (n: nat)
      ensures n == State().leavesCount
    {
      return leavesCount;
    }

    /** `root_node`: fold the stack from its top, each lower peak becoming the
        left child of the new head, which goes to the scratch storage. */
    method RootNode() returns (r: Result<Option<Folded>, MerkleTreeError>)
      ensures r == RootNodeSpec(nodes)
    {
      if |nodes| == 0 {
        return Ok(None);
      }
      var k := |nodes| - 1;
      var head := nodes[k];
      var scratch: map<nat, Node> := map[];
      assert nodes[k..] == [head];
      while k > 0
        invariant 0 <= k < |nodes|
        invariant FoldPeaks(nodes[k..]) == Ok(Folded(head, scratch))
      {
        k := k - 1;
        var node := nodes[k];
        assert nodes[k..][1..] == nodes[k + 1..];
        if node.key + Pow2(node.height) > U64_MAX {
          FoldPeaksErrUp(nodes, k);
          return Err(TooLarge);
        }
        head := Node(node.height + 1, node.key + Pow2(node.height), NodeSum(node.hash, head.hash));
        scratch := scratch[head.key := head];
      }
      assert nodes[0..] == nodes;
      return Ok(Some(Folded(head, scratch)));
    }

    /** `root`: the empty sum for an empty tree, the root node's hash otherwise. */
    method Root() returns (r: Hash)
      requires RootNodeSpec(nodes).Ok?
      ensures r == RootHash(nodes)
    {
      var root := RootNode();
      match root.value
      case None => return EmptySum;
      case Some(f) => return f.head.hash;
    }

    /** Read the node under each key, from `scratch` when it holds the key and
        from `storage` otherwise, stopping with `LoadError` at the first key
        found in neither. */
    static method ReadNodes(scratch: map<nat, Node>, storage: map<nat, Node>, keys: seq<nat>)
      returns (r: Result<seq<Node>, MerkleTreeError>)
      ensures r == LookupNodes(storage + scratch, keys)
    {
      ghost var both := storage + scratch;
      var ns: seq<Node> := [];
      for k := 0 to |keys|
        invariant |ns| == k
        invariant forall j :: 0 <= j < k ==> keys[j] in both && ns[j] == both[keys[j]]
      {
        var key := keys[k];
        if key in scratch {
          ns := ns + [scratch[key]];
        } else if key in storage {
          ns := ns + [storage[key]];
        } else {
          LookupFirstMissing(both, keys, k);
          return Err(LoadError(key));
        }
      }
      LookupAllFound(both, keys, ns);
      return Ok(ns);
    }

    /** The stack `load` reads: the nodes stored at the peak positions of
        `n` leaves. */
    static method ReadPeaks(storage: map<nat, Node>, n: nat) returns (r: Result<TreeState, MerkleTreeError>)
      ensures r == LoadSpec(storage, n)
      ensures r.Ok? ==> r.value.storage == storage && r.value.leavesCount == n
    {
      var peaks := PeakPositions(n);
      if peaks.None? {
        return Err(TooLarge);
      }
      var ns := ReadNodes(map[], storage, peaks.value);
      EmptyScratch(storage);
      if ns.Err? {
        return Err(ns.error);
      }
      return Ok(TreeState(storage, ns.value, n));
    }

    /** `load`: a tree over `storage` whose stack is read from the peak
        positions of `n` leaves. */
    static method Load(storage: map<nat, Node>, n: nat) returns (r: Result<MerkleTree, MerkleTreeError>)
      ensures r.Err? <==> LoadSpec(storage, n).Err?
      ensures r.Err? ==> r.error == LoadSpec(storage, n).error
      ensures r.Ok? ==> fresh(r.value) && r.value.State() == LoadSpec(storage, n).value
    {
      var loaded := ReadPeaks(storage, n);
      if loaded.Err? {
        return Err(loaded.error);
      }
      var t := new MerkleTree.FromState(loaded.value);
      return Ok(t);
    }

    /** `prove`. */
    method Prove(i: nat) returns (r: Result<(Hash, seq<Hash>), MerkleTreeError>)
      requires ProvableAt(State(), i)
      ensures r == ProveSpec(State(), i)
    {
      if i >= leavesCount {
        return Err(InvalidProofIndex(i));
      }
      var keys := ProofKeys(leavesCount, i);
      var root := RootNode();
      if root.Err? {
        return Err(root.error);
      }
      var f := root.value.value;
      var ns := ReadNodes(f.scratch, storage, keys);
      if ns.Err? {
        return Err(ns.error);
      }
      var proof := seq(|ns.value|, k requires 0 <= k < |ns.value| => ns.value[k].hash);
      assert proof == Hashes(ns.value);
      return Ok((f.head.hash, proof));
    }

    /** `reset` as written: only the stack is cleared. */
    method ResetAsWritten()
      modifies this
      ensures State() == ResetAsWrittenSpec(old(State()))
    {
      nodes := [];
    }

    /** `reset`, reverting the tree to the empty state. */
    method Reset()
      modifies this
      ensures State() == ResetSpec(old(State()))
    {
      nodes := [];
      leavesCount := 0;
    }

    /** `push`: create leaf `leavesCount` (refused when its position does not
        fit a u64), count it, write it to storage and push it onto the stack,
        merging equal heights and writing every new parent to storage. */
    method Push(data: Bytes) returns (r: Result<(), MerkleTreeError>)
      modifies this
      ensures Pushed(State(), r) == PushSpec(old(State()), data)
    {
      if 2 * leavesCount > U64_MAX {
        return Err(TooLarge);
      }
      ghost var t0 := State();
      var leaf := Node(0, 2 * leavesCount, LeafSum(data));
      leavesCount := leavesCount + 1;
      storage := storage[leaf.key := leaf];
      nodes := nodes + [leaf];
      ghost var target := MergeSpec(nodes, storage);
      while |nodes| >= 2 && nodes[|nodes| - 2].height == nodes[|nodes| - 1].height
        invariant MergeSpec(nodes, storage) == target && leavesCount == t0.leavesCount + 1
        decreases |nodes|
      {
        var left := nodes[|nodes| - 2];
        if left.key + Pow2(left.height) > U64_MAX {
          assert target == Merge(nodes, storage, false);
          assert PushSpec(t0, data) == Pushed(TreeState(storage, nodes, t0.leavesCount + 1), Err(TooLarge));
          return Err(TooLarge);
        }
        var parent := Merged(left, nodes[|nodes| - 1]);
        storage := storage[parent.key := parent];
        nodes := nodes[..|nodes| - 2] + [parent];
      }
      return Ok(());
    }
  }
}
