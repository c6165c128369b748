/**
 The Merkle tree over mizaru2's epoch keys: level-by-level construction, the branch for an
 epoch, and the verifier's fold. The two hash functions are parameters; what is assumed of
 them is stated where it is needed.
 */
module Merkle {
  import opened Common

  /** `leaf` hashes a public key, `pair` hashes two nodes (keyed hash of the right by the left). */
  datatype Hasher<!H> = Hasher(leaf: seq<byte> -> H, pair: (H, H) -> H)

  function Pow2(k: nat): (p: nat)
    ensures p > 0
  {
    if k == 0 then 1 else 2 * Pow2(k - 1)
  }

  lemma Pow2Step(k: nat)
    ensures Pow2(k + 1) == 2 * Pow2(k)
  {
  }

  // ----- construction

  /** The level above: each node is the hash of two neighbours. */
  function NextLevel<H>(h: Hasher<H>, level: seq<H>): (next: seq<H>)
    ensures |next| == |level| / 2
    ensures forall j :: 0 <= j < |next| ==> next[j] == h.pair(level[2 * j], level[2 * j + 1])
  {
    seq(|level| / 2, j requires 0 <= j < |level| / 2 => h.pair(level[2 * j], level[2 * j + 1]))
  }

  /** All levels from the given one up. */
  function Levels<H>(h: Hasher<H>, level: seq<H>): (tree: seq<seq<H>>)
    ensures tree != [] && tree[0] == level
    decreases |level|
  {
    if |level| <= 1 then [level] else [level] + Levels(h, NextLevel(h, level))
  }

  method BuildLevel<H>(h: Hasher<H>, last: seq<H>) returns (next: seq<H>)
    ensures next == NextLevel(h, last)
  {
    next := [];
    for i := 0 to |last| / 2
      invariant |next| == i
      invariant forall j :: 0 <= j < i ==> next[j] == h.pair(last[2 * j], last[2 * j + 1])
    {
      next := next + [h.pair(last[2 * i], last[2 * i + 1])];
    }
  }

  lemma LevelsFrom<H>(h: Hasher<H>, below: seq<seq<H>>, last: seq<H>)
    requires |last| > 1
    ensures below + Levels(h, last) == (below + [last]) + Levels(h, NextLevel(h, last))
  {
  }

  method BuildTree<H>(h: Hasher<H>, leaves: seq<H>) returns (tree: seq<seq<H>>)
    ensures tree == Levels(h, leaves)
  {
    var last := leaves;
    tree := [leaves];
    ghost var below: seq<seq<H>> := [];
    while |last| > 1
      invariant tree == below + [last]
      invariant Levels(h, leaves) == below + Levels(h, last)
      decreases |last|
    {
      hide Levels;
      LevelsFrom(h, below, last);
      below := tree;
      last := BuildLevel(h, last);
      tree := tree + [last];
    }
  }

  /** The public key: the single node of the last level. */
  function Root<H>(h: Hasher<H>, level: seq<H>): H
    requires level != []
    decreases |level|
  {
    if |level| == 1 then level[0] else Root(h, NextLevel(h, level))
  }

  lemma {:induction false} RootIsLast<H>(h: Hasher<H>, level: seq<H>)
    requires level != []
    ensures var tree := Levels(h, level); tree[|tree| - 1] == [Root(h, level)]
    decreases |level|
  {
    if |level| > 1 {
      RootIsLast(h, NextLevel(h, level));
    }
  }

  /** One level of a tree over 2^k leaves. */
  lemma LevelStep<H>(h: Hasher<H>, level: seq<H>, k: nat)
    requires |level| == Pow2(k)
    ensures k == 0 ==> |level| == 1 && Levels(h, level) == [level] && Root(h, level) == level[0]
    ensures k > 0 ==>
              var next := NextLevel(h, level);
              && |level| == 2 * |next| && |next| == Pow2(k - 1)
              && Levels(h, level) == [level] + Levels(h, next)
              && Levels(h, level)[1..] == Levels(h, next)
              && Root(h, level) == Root(h, next)
  {
  }

  /** A tree over 2^k leaves has k + 1 levels. */
  lemma {:induction false} TreeDepth<H>(h: Hasher<H>, level: seq<H>, k: nat)
    requires |level| == Pow2(k)
    ensures |Levels(h, level)| == k + 1
    decreases k
  {
    hide Levels, Root, Pow2;
    LevelStep(h, level, k);
    if k > 0 {
      TreeDepth(h, NextLevel(h, level), k - 1);
    }
  }

  /** Which node is hashed with which, and in which order. */
  lemma SmallTrees<H>(h: Hasher<H>, a: H, b: H, c: H, d: H)
    ensures Root(h, [a]) == a
    ensures Root(h, [a, b]) == h.pair(a, b)
    ensures Root(h, [a, b, c, d]) == h.pair(h.pair(a, b), h.pair(c, d))
  {
    PairRoot(h, a, b);
    var x, y := h.pair(a, b), h.pair(c, d);
    PairRoot(h, x, y);
    assert NextLevel(h, [a, b, c, d]) == [x, y];
    assert Root(h, [a, b, c, d]) == Root(h, NextLevel(h, [a, b, c, d]));
  }

  lemma PairRoot<H>(h: Hasher<H>, a: H, b: H)
    ensures Root(h, [a, b]) == h.pair(a, b)
  {
    assert NextLevel(h, [a, b]) == [h.pair(a, b)];
    assert Root(h, [a, b]) == Root(h, NextLevel(h, [a, b]));
  }

  // ----- branches

  /** The neighbour under the same parent. */
  function Other(i: nat): nat {
    i / 2 * 2 + (i + 1) % 2
  }

  /** The neighbours on the way from leaf `idx` to the root. */
  function Branch<H>(tree: seq<seq<H>>, idx: nat): seq<H>
    requires Indexable(tree, idx)
  {
    if |tree| <= 1 then [] else [tree[0][Other(idx)]] + Branch(tree[1..], idx / 2)
  }

  predicate Indexable<H>(tree: seq<seq<H>>, idx: nat) {
    |tree| > 1 ==> Other(idx) < |tree[0]| && Indexable(tree[1..], idx / 2)
  }

  lemma OtherInRange(idx: nat, n: nat)
    requires idx < n && n % 2 == 0
    ensures Other(idx) < n && idx / 2 < n / 2
  {
  }

  lemma {:induction false} LevelsIndexable<H>(h: Hasher<H>, level: seq<H>, idx: nat, k: nat)
    requires |level| == Pow2(k) && idx < |level|
    ensures Indexable(Levels(h, level), idx)
    decreases k
  {
    hide Levels, Root, Pow2, Other;
    LevelStep(h, level, k);
    TreeDepth(h, level, k);
    if k > 0 {
      OtherInRange(idx, |level|);
      LevelsIndexable(h, NextLevel(h, level), idx / 2, k - 1);
    }
  }

  method MerkleBranch<H>(tree: seq<seq<H>>, epoch: nat) returns (branch: seq<H>)
    requires tree != [] && Indexable(tree, epoch)
    ensures branch == Branch(tree, epoch)
  {
    var idx := epoch;
    branch := [];
    for i := 0 to |tree| - 1
      invariant Indexable(tree[i..], idx)
      invariant Branch(tree, epoch) == branch + Branch(tree[i..], idx)
    {
      assert tree[i..][1..] == tree[i + 1..];
      branch := branch + [tree[i][Other(idx)]];
      idx := idx / 2;
    }
  }

  // ----- verification

  /** One step of the fold; bit zero means the accumulator is the left child. */
  function Up<H>(h: Hasher<H>, acc: H, bit: nat, sibling: H): H {
    if bit == 0 then h.pair(acc, sibling) else h.pair(sibling, acc)
  }

  function Fold<H>(h: Hasher<H>, acc: H, epoch: nat, branch: seq<H>): H
    decreases |branch|
  {
    if branch == [] then acc
    else Fold(h, Up(h, acc, epoch % 2, branch[0]), epoch / 2, branch[1..])
  }

  /** The verifier's order: an even node is hashed before its neighbour, an odd one after it. */
  lemma FoldOrder<H>(h: Hasher<H>, acc: H, epoch: nat, x: H, y: H)
    ensures Fold(h, acc, 2 * epoch, [x]) == h.pair(acc, x)
    ensures Fold(h, acc, 2 * epoch + 1, [x]) == h.pair(x, acc)
    ensures Fold(h, acc, 4 * epoch + 2, [x, y]) == h.pair(y, h.pair(acc, x))
  {
    var one, last, two := [x], [y], [x, y];
    assert one[1..] == [] && last[1..] == [] && two[1..] == last;
    assert Fold(h, acc, 2 * epoch, one) == Fold(h, h.pair(acc, x), epoch, []);
    assert Fold(h, acc, 2 * epoch + 1, one) == Fold(h, h.pair(x, acc), epoch, []);
    var low := h.pair(acc, x);
    assert Fold(h, low, 2 * epoch + 1, last) == Fold(h, h.pair(y, low), epoch, []);
    assert (4 * epoch + 2) / 2 == 2 * epoch + 1 && (4 * epoch + 2) % 2 == 0;
    assert Fold(h, acc, 4 * epoch + 2, two) == Fold(h, low, 2 * epoch + 1, last);
  }

  /** `Panicked`: shifting a u16 by sixteen or more aborts the process. */
  datatype Verdict = Genuine | Forged | Panicked

  /** `n >> i`. */
  function ShiftRight(n: nat, i: nat): nat {
    if i == 0 then n else ShiftRight(n, i - 1) / 2
  }

  method VerifyMember<H(==)>(h: Hasher<H>, root: H, epoch: u16, subkey: seq<byte>, branch: seq<H>)
    returns (verdict: Verdict)
    ensures verdict.Panicked? <==> |branch| > 16
    ensures |branch| <= 16 ==>
              (verdict.Genuine? <==> Fold(h, h.leaf(subkey), epoch, branch) == root)
  {
    var accumulator := h.leaf(subkey);
    ghost var whole := Fold(h, accumulator, epoch, branch);
    for i := 0 to |branch|
      invariant i <= 16
      invariant whole == Fold(h, accumulator, ShiftRight(epoch, i), branch[i..])
    {
      if i >= 16 {
        return Panicked;
      }
      var bit := ShiftRight(epoch, i) % 2;
      assert branch[i..][1..] == branch[i + 1..];
      if bit == 0 {
        accumulator := h.pair(accumulator, branch[i]);
      } else {
        accumulator := h.pair(branch[i], accumulator);
      }
    }
    verdict := if accumulator == root then Genuine else Forged;
  }

  // ----- completeness

  /** A node and its neighbour hash to their parent. */
  lemma Siblings<H>(h: Hasher<H>, level: seq<H>, idx: nat)
    requires idx < |level| && |level| % 2 == 0
    ensures Other(idx) < |level|
    ensures Up(h, level[idx], idx % 2, level[Other(idx)]) == NextLevel(h, level)[idx / 2]
  {
  }

  lemma BranchStep<H>(level: seq<H>, upper: seq<seq<H>>, idx: nat)
    requires upper != [] && Indexable([level] + upper, idx)
    ensures Other(idx) < |level| && Indexable(upper, idx / 2)
    ensures Branch([level] + upper, idx) == [level[Other(idx)]] + Branch(upper, idx / 2)
  {
    assert ([level] + upper)[1..] == upper;
  }

  lemma EmptyFold<H>(h: Hasher<H>, acc: H, idx: nat, level: seq<H>)
    ensures Fold(h, acc, idx, []) == acc
    ensures Indexable([level], idx) && Branch([level], idx) == []
  {
  }

  lemma FoldStep<H>(h: Hasher<H>, acc: H, idx: nat, sibling: H, branch: seq<H>)
    ensures Fold(h, acc, idx, [sibling] + branch) == Fold(h, Up(h, acc, idx % 2, sibling), idx / 2, branch)
  {
    assert ([sibling] + branch)[1..] == branch;
  }

  /** Folding the branch of any leaf of a tree with 2^k leaves gives the root. */
  lemma {:induction false} BranchReachesRoot<H>(h: Hasher<H>, level: seq<H>, idx: nat, k: nat)
    requires |level| == Pow2(k) && idx < |level|
    ensures Indexable(Levels(h, level), idx)
    ensures Fold(h, level[idx], idx, Branch(Levels(h, level), idx)) == Root(h, level)
    decreases k
  {
    hide Levels, Root, Fold, Branch, Indexable, Up, Pow2;
    LevelsIndexable(h, level, idx, k);
    LevelStep(h, level, k);
    if k == 0 {
      EmptyFold(h, level[0], idx, level);
    } else {
      var next := NextLevel(h, level);
      BranchReachesRoot(h, next, idx / 2, k - 1);
      Siblings(h, level, idx);
      BranchStep(level, Levels(h, next), idx);
      FoldStep(h, level[idx], idx, level[Other(idx)], Branch(Levels(h, next), idx / 2));
    }
  }

  function Leaves<H>(h: Hasher<H>, keys: seq<seq<byte>>): (ls: seq<H>)
    ensures |ls| == |keys|
    ensures forall i :: 0 <= i < |ls| ==> ls[i] == h.leaf(keys[i])
  {
    seq(|keys|, i requires 0 <= i < |keys| => h.leaf(keys[i]))
  }

  /** Every key verifies at its own epoch with the branch the signer hands out. */
  lemma EveryKeyVerifies<H>(h: Hasher<H>, keys: seq<seq<byte>>, k: nat, epoch: nat)
    requires |keys| == Pow2(k) && epoch < |keys|
    ensures var tree := Levels(h, Leaves(h, keys));
            && Indexable(tree, epoch)
            && |Branch(tree, epoch)| == k
            && Fold(h, h.leaf(keys[epoch]), epoch, Branch(tree, epoch)) == Root(h, Leaves(h, keys))
  {
    BranchReachesRoot(h, Leaves(h, keys), epoch, k);
    TreeDepth(h, Leaves(h, keys), k);
    BranchLength(Levels(h, Leaves(h, keys)), epoch);
  }

  const KEY_COUNT := 65536

  /** The real tree has one leaf for every value of the u16 epoch, so no epoch is out of range. */
  lemma EveryEpochHasALeaf(epoch: u16)
    ensures KEY_COUNT == Pow2(16) && epoch < KEY_COUNT
  {
    assert Pow2(4) == 16;
    assert Pow2(8) == 256;
    assert Pow2(12) == 4096;
  }

  lemma {:induction false} BranchLength<H>(tree: seq<seq<H>>, idx: nat)
    requires tree != [] && Indexable(tree, idx)
    ensures |Branch(tree, idx)| == |tree| - 1
    decreases |tree|
  {
    if |tree| > 1 {
      BranchLength(tree[1..], idx / 2);
    }
  }

  // ----- binding

  /** What a hash was taken of: a public key, or two nodes. */
  datatype Preimage<H> = Key(key: seq<byte>) | Node(left: H, right: H)

  function HashOf<H>(h: Hasher<H>, p: Preimage<H>): H {
    match p
    case Key(key) => h.leaf(key)
    case Node(left, right) => h.pair(left, right)
  }

  /** Two different inputs with the same hash. */
  datatype Collision<H> = Collision(a: Preimage<H>, b: Preimage<H>)

  predicate Collides<H(==)>(h: Hasher<H>, c: Collision<H>) {
    c.a != c.b && HashOf(h, c.a) == HashOf(h, c.b)
  }

  function Compare<H(==)>(a: Preimage<H>, b: Preimage<H>): Option<Collision<H>> {
    if a == b then None else Some(Collision(a, b))
  }

  /** What one step of the fold hashes. */
  function StepInput<H>(acc: H, bit: nat, sibling: H): Preimage<H> {
    if bit == 0 then Node(acc, sibling) else Node(sibling, acc)
  }

  /**
   Walks up from `level[idx]` beside a fold of the same height, and reports the topmost place
   where the two hash different nodes.
   */
  function Differs<H(==)>(h: Hasher<H>, level: seq<H>, acc: H, idx: nat, branch: seq<H>)
    : Option<Collision<H>>
    requires |level| == Pow2(|branch|) && idx < |level|
    decreases |branch|
  {
    if branch == [] then None
    else
      var above := Differs(h, NextLevel(h, level), Up(h, acc, idx % 2, branch[0]), idx / 2, branch[1..]);
      if above.Some? then above
      else Compare(StepInput(acc, idx % 2, branch[0]), Node(level[idx / 2 * 2], level[idx / 2 * 2 + 1]))
  }

  lemma DiffersStep<H>(h: Hasher<H>, level: seq<H>, acc: H, idx: nat, sibling: H, tail: seq<H>)
    requires |level| == Pow2(|tail| + 1) && idx < |level|
    ensures |NextLevel(h, level)| == Pow2(|tail|) && idx / 2 < |NextLevel(h, level)|
    ensures var above := Differs(h, NextLevel(h, level), Up(h, acc, idx % 2, sibling), idx / 2, tail);
            Differs(h, level, acc, idx, [sibling] + tail) ==
              if above.Some? then above
              else Compare(StepInput(acc, idx % 2, sibling), Node(level[idx / 2 * 2], level[idx / 2 * 2 + 1]))
  {
    assert ([sibling] + tail)[1..] == tail;
  }

  /** Two children under the same parent are the same two, or they collide. */
  lemma ParentBindsOrCollides<H>(h: Hasher<H>, level: seq<H>, idx: nat, acc: H, sibling: H)
    requires idx < |level| && |level| % 2 == 0
    requires Up(h, acc, idx % 2, sibling) == NextLevel(h, level)[idx / 2]
    ensures Other(idx) < |level|
    ensures match Compare(StepInput(acc, idx % 2, sibling), Node(level[idx / 2 * 2], level[idx / 2 * 2 + 1]))
            case None => acc == level[idx] && sibling == level[Other(idx)]
            case Some(c) => Collides(h, c) && c.a.Node? && c.b.Node?
  {
  }

  /**
   A full-depth fold that reaches the root started at the right node and used the right branch,
   or two different pairs of nodes with the same hash have been found.
   */
  lemma {:induction false} FoldBindsOrCollides<H>(h: Hasher<H>, level: seq<H>, acc: H, idx: nat, branch: seq<H>)
    requires |level| == Pow2(|branch|) && idx < |level|
    requires Fold(h, acc, idx, branch) == Root(h, level)
    ensures Indexable(Levels(h, level), idx)
    ensures match Differs(h, level, acc, idx, branch)
            case None => acc == level[idx] && branch == Branch(Levels(h, level), idx)
            case Some(c) => Collides(h, c) && c.a.Node? && c.b.Node?
    decreases |branch|
  {
    hide Levels, Root, Fold, Branch, Indexable, Up, Pow2, Compare, StepInput, Collides;
    LevelsIndexable(h, level, idx, |branch|);
    LevelStep(h, level, |branch|);
    if branch == [] {
      EmptyFold(h, acc, idx, level);
    } else {
      hide Differs;
      var next, tail := NextLevel(h, level), branch[1..];
      var acc' := Up(h, acc, idx % 2, branch[0]);
      assert branch == [branch[0]] + tail;
      FoldStep(h, acc, idx, branch[0], tail);
      DiffersStep(h, level, acc, idx, branch[0], tail);
      FoldBindsOrCollides(h, next, acc', idx / 2, tail);
      if Differs(h, next, acc', idx / 2, tail).None? {
        ParentBindsOrCollides(h, level, idx, acc, branch[0]);
        BranchStep(level, Levels(h, next), idx);
      }
    }
  }

  // ----- branches of any length

  /** The level `j` steps above the given one. */
  function LevelAt<H>(h: Hasher<H>, level: seq<H>, j: nat): seq<H> {
    if j == 0 then level else NextLevel(h, LevelAt(h, level, j - 1))
  }

  lemma LevelAtStep<H>(h: Hasher<H>, level: seq<H>, j: nat)
    ensures j == 0 ==> LevelAt(h, level, j) == level
    ensures j > 0 ==> LevelAt(h, level, j) == NextLevel(h, LevelAt(h, level, j - 1))
  {
    hide NextLevel;
  }

  lemma {:induction false} LevelAtSize<H>(h: Hasher<H>, level: seq<H>, k: nat, j: nat)
    requires |level| == Pow2(k) && j <= k
    ensures |LevelAt(h, level, j)| == Pow2(k - j)
    decreases j
  {
    hide Pow2, NextLevel, LevelAt;
    LevelAtStep(h, level, j);
    if j > 0 {
      LevelAtSize(h, level, k, j - 1);
      Pow2Step(k - j);
    }
  }

  lemma {:induction false} LevelAtRoot<H>(h: Hasher<H>, level: seq<H>, k: nat, j: nat)
    requires |level| == Pow2(k) && j <= k
    ensures LevelAt(h, level, j) != [] && Root(h, LevelAt(h, level, j)) == Root(h, level)
    decreases j
  {
    hide Root, Pow2, Levels, LevelAt, NextLevel;
    LevelAtSize(h, level, k, j);
    LevelAtStep(h, level, j);
    if j > 0 {
      LevelAtRoot(h, level, k, j - 1);
      LevelAtSize(h, level, k, j - 1);
      LevelStep(h, LevelAt(h, level, j - 1), k - j + 1);
    }
  }

  /** The low `m` bits, which are all that a fold over `m` siblings looks at. */
  function LowBits(n: nat, m: nat): (r: nat)
    ensures r < Pow2(m)
  {
    if m == 0 then 0 else n % 2 + 2 * LowBits(n / 2, m - 1)
  }

  lemma {:induction false} FoldUsesLowBits<H>(h: Hasher<H>, acc: H, n: nat, branch: seq<H>)
    ensures Fold(h, acc, n, branch) == Fold(h, acc, LowBits(n, |branch|), branch)
    decreases |branch|
  {
    if branch != [] {
      var low := LowBits(n, |branch|);
      assert low % 2 == n % 2 && low / 2 == LowBits(n / 2, |branch| - 1);
      FoldUsesLowBits(h, Up(h, acc, n % 2, branch[0]), n / 2, branch[1..]);
    }
  }

  /**
   Given the hash input at the foot of an accepted branch, of whatever length, finds where it
   departs from the tree over `keys`; `None` if it does not.
   */
  function Evidence<H(==)>(h: Hasher<H>, keys: seq<seq<byte>>, k: nat, foot: Preimage<H>, epoch: nat, branch: seq<H>)
    : Option<Collision<H>>
    requires |keys| == Pow2(k) && epoch < |keys|
    decreases |branch|
  {
    var acc := HashOf(h, foot);
    if |branch| > k then
      Evidence(h, keys, k, StepInput(acc, epoch % 2, branch[0]), epoch / 2, branch[1..])
    else if |branch| == k then
      var above := Differs(h, Leaves(h, keys), acc, epoch, branch);
      if above.Some? then above else Compare(foot, Key(keys[epoch]))
    else
      EvidenceBelow(h, Below(h, Leaves(h, keys), k, |branch|), foot, LowBits(epoch, |branch|), branch)
  }

  /** The level under the one of 2^m nodes, in a tree over 2^k leaves. */
  function Below<H>(h: Hasher<H>, leaves: seq<H>, k: nat, m: nat): (below: seq<H>)
    requires |leaves| == Pow2(k) && m < k
    ensures |below| == 2 * Pow2(m)
  {
    hide LevelAt, Pow2;
    LevelAtSize(h, leaves, k, k - m - 1);
    Pow2Step(m);
    LevelAt(h, leaves, k - m - 1)
  }

  /** The same for a branch that is too short and ends at an inner node. */
  function EvidenceBelow<H(==)>(h: Hasher<H>, below: seq<H>, foot: Preimage<H>, idx: nat, branch: seq<H>)
    : Option<Collision<H>>
    requires |below| == 2 * Pow2(|branch|) && idx < Pow2(|branch|)
  {
    var above := Differs(h, NextLevel(h, below), HashOf(h, foot), idx, branch);
    if above.Some? then above else Compare(foot, Node(below[2 * idx], below[2 * idx + 1]))
  }

  lemma BelowRoot<H>(h: Hasher<H>, leaves: seq<H>, k: nat, m: nat)
    requires |leaves| == Pow2(k) && m < k
    ensures Root(h, NextLevel(h, Below(h, leaves, k, m))) == Root(h, leaves)
  {
    hide Root, Pow2, LevelAt, NextLevel;
    LevelAtStep(h, leaves, k - m);
    LevelAtRoot(h, leaves, k, k - m);
  }

  lemma ShortBranch<H>(
    h: Hasher<H>, keys: seq<seq<byte>>, k: nat, foot: Preimage<H>, epoch: nat, branch: seq<H>)
    requires |keys| == Pow2(k) && epoch < |keys| && |branch| < k && foot.Key?
    requires Fold(h, HashOf(h, foot), epoch, branch) == Root(h, Leaves(h, keys))
    ensures var e := Evidence(h, keys, k, foot, epoch, branch); e.Some? && Collides(h, e.value)
  {
    hide Root, Fold, Pow2, Differs, Leaves;
    var idx := LowBits(epoch, |branch|);
    BelowRoot(h, Leaves(h, keys), k, |branch|);
    hide Below;
    var below := Below(h, Leaves(h, keys), k, |branch|);
    FoldUsesLowBits(h, HashOf(h, foot), epoch, branch);
    FoldBindsOrCollides(h, NextLevel(h, below), HashOf(h, foot), idx, branch);
  }

  lemma FullBranch<H>(
    h: Hasher<H>, keys: seq<seq<byte>>, k: nat, foot: Preimage<H>, epoch: nat, branch: seq<H>)
    requires |keys| == Pow2(k) && epoch < |keys| && |branch| == k
    requires Fold(h, HashOf(h, foot), epoch, branch) == Root(h, Leaves(h, keys))
    ensures match Evidence(h, keys, k, foot, epoch, branch)
            case None => foot == Key(keys[epoch])
            case Some(c) => Collides(h, c) && (foot.Key? ==> (c.a.Key? <==> c.b.Key?))
  {
    hide Root, Fold, Pow2, Differs;
    FoldBindsOrCollides(h, Leaves(h, keys), HashOf(h, foot), epoch, branch);
  }

  lemma {:induction false} LongBranch<H>(
    h: Hasher<H>, keys: seq<seq<byte>>, k: nat, foot: Preimage<H>, epoch: nat, branch: seq<H>)
    requires |keys| == Pow2(k) && epoch < |keys| && |branch| > k
    requires Fold(h, HashOf(h, foot), epoch, branch) == Root(h, Leaves(h, keys))
    ensures var e := Evidence(h, keys, k, foot, epoch, branch); e.Some? && Collides(h, e.value)
    decreases |branch|
  {
    hide Root, Pow2, Differs;
    var foot' := StepInput(HashOf(h, foot), epoch % 2, branch[0]);
    assert HashOf(h, foot') == Up(h, HashOf(h, foot), epoch % 2, branch[0]);
    if |branch| == k + 1 {
      FullBranch(h, keys, k, foot', epoch / 2, branch[1..]);
    } else {
      LongBranch(h, keys, k, foot', epoch / 2, branch[1..]);
    }
  }

  /**
   Binding without any assumption on the hashes: whatever subkey and branch the verifier
   accepts, the branch has full depth and the subkey is the one built for that epoch, or
   `Evidence` computes two different inputs with the same hash from them.
   */
  lemma AcceptedOrCollision<H>(
    h: Hasher<H>, keys: seq<seq<byte>>, k: nat, epoch: nat, subkey: seq<byte>, branch: seq<H>)
    requires |keys| == Pow2(k) && epoch < |keys|
    requires Fold(h, h.leaf(subkey), epoch, branch) == Root(h, Leaves(h, keys))
    ensures match Evidence(h, keys, k, Key(subkey), epoch, branch)
            case None => |branch| == k && subkey == keys[epoch]
            case Some(c) => Collides(h, c) && (|branch| == k ==> (c.a.Key? <==> c.b.Key?))
  {
    hide Fold, Root, Evidence, Pow2;
    if |branch| < k {
      ShortBranch(h, keys, k, Key(subkey), epoch, branch);
    } else if |branch| == k {
      FullBranch(h, keys, k, Key(subkey), epoch, branch);
    } else {
      LongBranch(h, keys, k, Key(subkey), epoch, branch);
    }
  }

  // ----- ideal hashes

  ghost predicate PairInjective<H(!new)>(h: Hasher<H>) {
    forall a, b, c, d :: h.pair(a, b) == h.pair(c, d) ==> a == c && b == d
  }

  ghost predicate LeafInjective<H>(h: Hasher<H>) {
    forall x, y :: h.leaf(x) == h.leaf(y) ==> x == y
  }

  /** No node hash is also a key hash. */
  ghost predicate Separated<H(!new)>(h: Hasher<H>) {
    forall x, a, b :: h.leaf(x) != h.pair(a, b)
  }

  /** A full-depth fold that reaches the root started at the right node and used the right branch. */
  lemma FoldIsBinding<H(!new)>(h: Hasher<H>, level: seq<H>, acc: H, idx: nat, branch: seq<H>)
    requires PairInjective(h) && |level| == Pow2(|branch|) && idx < |level|
    requires Fold(h, acc, idx, branch) == Root(h, level)
    ensures acc == level[idx]
    ensures Indexable(Levels(h, level), idx) && branch == Branch(Levels(h, level), idx)
  {
    hide Differs, Fold, Root, Pow2, Levels, Branch, Indexable;
    FoldBindsOrCollides(h, level, acc, idx, branch);
  }

  /** An accepted full-depth branch forces the subkey to be the one built for that epoch. */
  lemma AcceptedKeyIsGenuine<H(!new)>(
    h: Hasher<H>, keys: seq<seq<byte>>, k: nat, epoch: nat, subkey: seq<byte>, branch: seq<H>)
    requires PairInjective(h) && LeafInjective(h)
    requires |keys| == Pow2(k) && epoch < |keys| && |branch| == k
    requires Fold(h, h.leaf(subkey), epoch, branch) == Root(h, Leaves(h, keys))
    ensures subkey == keys[epoch]
  {
    hide Evidence, Fold, Root, Pow2;
    AcceptedOrCollision(h, keys, k, epoch, subkey, branch);
  }

  /**
   With key hashes and node hashes kept apart, no branch of any other length is accepted either,
   so acceptance alone identifies the key.
   */
  lemma AnyAcceptedKeyIsGenuine<H(!new)>(
    h: Hasher<H>, keys: seq<seq<byte>>, k: nat, epoch: nat, subkey: seq<byte>, branch: seq<H>)
    requires PairInjective(h) && LeafInjective(h) && Separated(h)
    requires |keys| == Pow2(k) && epoch < |keys|
    requires Fold(h, h.leaf(subkey), epoch, branch) == Root(h, Leaves(h, keys))
    ensures |branch| == k && subkey == keys[epoch]
  {
    hide Evidence, Fold, Root, Pow2;
    AcceptedOrCollision(h, keys, k, epoch, subkey, branch);
  }
}
