/** The block tree: pruning to a finalized block, subtree weights, and the greedy heaviest-subtree descent. */
module ForkChoice {
  import opened Wrappers
  import opened Words

  type Hash = Word

  /** A block with its hash. */
  datatype Block = Block(hash: Hash, parent: Hash)

  /** Child hashes under each parent, in order of arrival and with repetitions. */
  type Tree = map<Hash, seq<Hash>>

  function Kids(tree: Tree, h: Hash): seq<Hash> {
    if h in tree then tree[h] else []
  }

  function WithChild(tree: Tree, parent: Hash, child: Hash): Tree {
    tree[parent := Kids(tree, parent) + [child]]
  }

  // ----- acyclic trees -----

  /** `height` falls along every edge. */
  ghost predicate Layered(tree: Tree, height: Hash -> nat) {
    forall p, c :: p in tree && c in tree[p] ==> height(c) < height(p)
  }

  /** No block is its own ancestor, as hashes guarantee: a header contains its parent's hash. */
  ghost predicate Acyclic(tree: Tree) {
    exists height: Hash -> nat :: Layered(tree, height)
  }

  /** Numbers that rise along every edge, as block numbers do. */
  ghost predicate Rising(tree: Tree, number: Hash -> nat) {
    forall p, c :: p in tree && c in tree[p] ==> number(p) < number(c)
  }

  function Listed(tree: Tree): set<Hash> {
    set p, c | p in tree && c in tree[p] :: c
  }

  lemma {:induction false} UpperBound(s: set<Hash>, number: Hash -> nat) returns (m: nat)
    ensures forall h :: h in s ==> number(h) <= m
  {
    if s == {} {
      m := 0;
    } else {
      var h :| h in s;
      m := UpperBound(s - {h}, number);
      if number(h) > m { m := number(h); }
    }
  }

  /** Rising block numbers make a store acyclic. */
  lemma RisingIsAcyclic(tree: Tree, number: Hash -> nat)
    requires Rising(tree, number)
    ensures Acyclic(tree)
  {
    var m := UpperBound(Listed(tree), number);
    var height := (h: Hash) => if number(h) <= m then m - number(h) else 0;
    forall p, c | p in tree && c in tree[p]
      ensures height(c) < height(p)
    {
      assert c in Listed(tree);
    }
    assert Layered(tree, height);
  }

  // ----- descent -----

  /** `path` leads from `a` to `b` along the listed children. */
  ghost predicate IsPath(tree: Tree, path: seq<Hash>, a: Hash, b: Hash) {
    && |path| > 0 && path[0] == a && path[|path| - 1] == b
    && forall i :: 0 <= i < |path| - 1 ==> path[i + 1] in Kids(tree, path[i])
  }

  /** `b` is `a` or a descendant of `a`. */
  ghost predicate Descends(tree: Tree, a: Hash, b: Hash) {
    exists path :: IsPath(tree, path, a, b)
  }

  lemma DescendsSelf(tree: Tree, a: Hash)
    ensures Descends(tree, a, a)
  {
    assert IsPath(tree, [a], a, a);
  }

  lemma DescendsChild(tree: Tree, a: Hash, b: Hash, c: Hash)
    requires Descends(tree, a, b) && c in Kids(tree, b)
    ensures Descends(tree, a, c)
  {
    var path :| IsPath(tree, path, a, b);
    assert IsPath(tree, path + [c], a, c);
  }

  /** A set that holds `a` and is closed under children holds every descendant. */
  lemma {:induction false} ClosedHoldsPath(tree: Tree, s: set<Hash>, path: seq<Hash>, a: Hash, b: Hash)
    requires a in s && IsPath(tree, path, a, b)
    requires forall h, c :: h in s && c in Kids(tree, h) ==> c in s
    ensures b in s
  {
    if |path| > 1 {
      assert path[1] in Kids(tree, path[0]);
      ClosedHoldsPath(tree, s, path[1..], path[1], b);
    }
  }

  // ----- weights -----

  /** The weight the source computes: one, plus the weights of the listed children. */
  ghost function Weight(tree: Tree, height: Hash -> nat, h: Hash): nat
    requires Layered(tree, height)
    decreases height(h), 1, 0
  {
    1 + Weights(tree, height, Kids(tree, h), height(h))
  }

  ghost function Weights(tree: Tree, height: Hash -> nat, hs: seq<Hash>, bound: nat): nat
    requires Layered(tree, height) && forall h :: h in hs ==> height(h) < bound
    decreases bound, 0, |hs|
  {
    if hs == [] then 0
    else
      var n := |hs| - 1;
      Weights(tree, height, hs[..n], bound) + Weight(tree, height, hs[n])
  }

  lemma {:induction false} WeightsConcat(tree: Tree, height: Hash -> nat, xs: seq<Hash>, ys: seq<Hash>, bound: nat)
    requires Layered(tree, height) && forall h :: h in xs + ys ==> height(h) < bound
    ensures (forall h :: h in xs ==> height(h) < bound) && (forall h :: h in ys ==> height(h) < bound)
    ensures Weights(tree, height, xs + ys, bound) == Weights(tree, height, xs, bound) + Weights(tree, height, ys, bound)
    decreases |ys|
  {
    assert forall h :: h in ys ==> h in xs + ys;
    if ys == [] {
      assert xs + ys == xs;
    } else {
      var n := |ys| - 1;
      assert (xs + ys)[..|xs + ys| - 1] == xs + ys[..n];
      assert forall h :: h in xs + ys[..n] ==> h in xs + ys;
      WeightsConcat(tree, height, xs, ys[..n], bound);
    }
  }

  lemma {:induction false} WeightsBoundIrrelevant(tree: Tree, height: Hash -> nat, hs: seq<Hash>, b: nat, b': nat)
    requires Layered(tree, height) && forall h :: h in hs ==> height(h) < b && height(h) < b'
    ensures Weights(tree, height, hs, b) == Weights(tree, height, hs, b')
  {
    if hs != [] { WeightsBoundIrrelevant(tree, height, hs[..|hs| - 1], b, b'); }
  }

  lemma {:induction false} WeightsPrefix(tree: Tree, height: Hash -> nat, hs: seq<Hash>, bound: nat, i: nat)
    requires Layered(tree, height) && i < |hs| && forall h :: h in hs ==> height(h) < bound
    ensures Weights(tree, height, hs[..i], bound) + Weight(tree, height, hs[i]) <= Weights(tree, height, hs, bound)
  {
    var n := |hs| - 1;
    if i < n {
      WeightsPrefix(tree, height, hs[..n], bound, i);
      assert hs[..n][..i] == hs[..i] && hs[..n][i] == hs[i];
    }
  }

  lemma ChildIsLighter(tree: Tree, height: Hash -> nat, p: Hash, c: Hash)
    requires Layered(tree, height) && c in Kids(tree, p)
    ensures Weight(tree, height, c) < Weight(tree, height, p)
  {
    var kids := Kids(tree, p);
    var i :| 0 <= i < |kids| && kids[i] == c;
    WeightsPrefix(tree, height, kids, height(p), i);
  }

  /** The recursion over 64-bit weights; `None` is an overflow. */
  method CalculateSubtreeWeight(tree: Tree, ghost height: Hash -> nat, root: Hash) returns (r: Option<nat>)
    requires Layered(tree, height)
    ensures r == if Weight(tree, height, root) <= U64_MAX then Some(Weight(tree, height, root)) else None
    decreases height(root)
  {
    var weight := 1;
    var kids := Kids(tree, root);
    for i := 0 to |kids|
      invariant weight == 1 + Weights(tree, height, kids[..i], height(root)) <= U64_MAX
    {
      WeightsPrefix(tree, height, kids, height(root), i);
      var w := CalculateSubtreeWeight(tree, height, kids[i]);
      if w == None || weight + w.value > U64_MAX { return None; }
      weight := weight + w.value;
      assert kids[..i + 1][..i] == kids[..i];
    }
    assert kids[..|kids|] == kids;
    return Some(weight);
  }

  // ----- pruning -----

  /** The worklist of `prune`, which keeps no record of what it has visited. */
  method CollectDescendants(tree: Tree, root: Hash) returns (keep: set<Hash>)
    requires Acyclic(tree)
    ensures forall h :: h in keep <==> Descends(tree, root, h)
  {
    ghost var height :| Layered(tree, height);
    ghost var bound := height(root) + 1;
    hide Descends, Weights, Layered, Kids;
    DescendsSelf(tree, root);
    keep := {};
    var queue := [root];
    while queue != []
      invariant forall h :: h in queue ==> height(h) < bound
      invariant forall h :: h in queue || h in keep ==> Descends(tree, root, h)
      invariant root in keep || root in queue
      invariant forall h, c :: h in keep && c in Kids(tree, h) ==> c in keep || c in queue
      decreases Weights(tree, height, queue, bound)
    {
      ghost var before := queue;
      var hash := queue[|queue| - 1];
      queue := queue[..|queue| - 1];
      keep := keep + {hash};
      var kids := Kids(tree, hash);
      forall c | c in kids
        ensures Descends(tree, root, c)
      {
        DescendsChild(tree, root, hash, c);
      }
      assert before == queue + [hash];
      WorklistShrinks(tree, height, queue, hash, bound);
      queue := queue + kids;
    }
    ClosedHoldsAll(tree, keep, root);
  }

  lemma ClosedHoldsAll(tree: Tree, s: set<Hash>, a: Hash)
    requires a in s && forall h, c :: h in s && c in Kids(tree, h) ==> c in s
    ensures forall h :: Descends(tree, a, h) ==> h in s
  {
    hide Kids;
    forall h | Descends(tree, a, h)
      ensures h in s
    {
      var path :| IsPath(tree, path, a, h);
      ClosedHoldsPath(tree, s, path, a, h);
    }
  }

  /** Replacing a hash by its children lowers the worklist's total weight by one. */
  lemma WorklistShrinks(tree: Tree, height: Hash -> nat, queue: seq<Hash>, hash: Hash, bound: nat)
    requires Layered(tree, height) && height(hash) < bound && forall h :: h in queue ==> height(h) < bound
    ensures forall h :: h in queue + Kids(tree, hash) ==> height(h) < bound
    ensures Weights(tree, height, queue + Kids(tree, hash), bound) + 1 == Weights(tree, height, queue + [hash], bound)
  {
    var kids := Kids(tree, hash);
    WeightsConcat(tree, height, queue, kids, bound);
    WeightsConcat(tree, height, queue, [hash], bound);
    WeightsBoundIrrelevant(tree, height, kids, bound, height(hash));
    assert [hash][..0] == [];
  }

  datatype BlockInfo = BlockInfo(parent: Hash, totalDifficulty: Word)

  type Blocks = map<Hash, BlockInfo>

  /** Every block is deeper in its hash chain than its parent. */
  ghost predicate Deepening(blocks: Blocks, depth: Hash -> nat) {
    forall c :: c in blocks ==> depth(blocks[c].parent) < depth(c)
  }

  /**
   The child index agrees with the parent links: what is listed is a block with that parent, and every
   block is listed under its parent, except the block last pruned to.
   */
  ghost predicate Indexed(blocks: Blocks, children: Tree, root: Option<Hash>) {
    && (forall p, c :: p in children && c in children[p] ==> c in blocks && blocks[c].parent == p)
    && (forall c :: c in blocks && root != Some(c) ==> c in Kids(children, blocks[c].parent))
  }

  lemma IndexedIsAcyclic(blocks: Blocks, children: Tree, root: Option<Hash>, depth: Hash -> nat)
    requires Indexed(blocks, children, root) && Deepening(blocks, depth)
    ensures Acyclic(children)
  {
    forall p, c | p in children && c in children[p]
      ensures depth(p) < depth(c)
    {
      assert c in blocks && blocks[c].parent == p;
    }
    RisingIsAcyclic(children, depth);
  }

  lemma AddKeepsIndex(blocks: Blocks, children: Tree, root: Option<Hash>, b: Block, difficulty: Word)
    requires Indexed(blocks, children, root)
    requires b.hash in blocks ==> blocks[b.hash].parent == b.parent
    ensures Indexed(blocks[b.hash := BlockInfo(b.parent, difficulty)], WithChild(children, b.parent, b.hash), root)
  {
    var blocks' := blocks[b.hash := BlockInfo(b.parent, difficulty)];
    var children' := WithChild(children, b.parent, b.hash);
    forall p, c | p in children' && c in children'[p]
      ensures c in blocks' && blocks'[c].parent == p
    {
      if c != b.hash || p != b.parent { assert p in children && c in children[p]; }
    }
    forall c | c in blocks' && root != Some(c)
      ensures c in Kids(children', blocks'[c].parent)
    {
      if c != b.hash { assert c in Kids(children, blocks[c].parent); }
    }
  }

  lemma LastStep(tree: Tree, a: Hash, b: Hash) returns (p: Hash)
    requires Descends(tree, a, b) && a != b
    ensures Descends(tree, a, p) && b in Kids(tree, p)
  {
    var path :| IsPath(tree, path, a, b);
    var n := |path| - 1;
    p := path[n - 1];
    assert path[n - 1 + 1] in Kids(tree, path[n - 1]);
    assert IsPath(tree, path[..n], a, p);
  }

  lemma PruneKeepsIndex(blocks: Blocks, children: Tree, root: Option<Hash>, f: Hash, blocks': Blocks, children': Tree)
    requires Indexed(blocks, children, root)
    requires forall h :: h in blocks' <==> h in blocks && Descends(children, f, h)
    requires forall h :: h in children' <==> h in children && Descends(children, f, h)
    requires (forall h :: h in blocks' ==> blocks'[h] == blocks[h]) && forall h :: h in children' ==> children'[h] == children[h]
    ensures Indexed(blocks', children', Some(f))
  {
    forall p, c | p in children' && c in children'[p]
      ensures c in blocks' && blocks'[c].parent == p
    {
      DescendsChild(children, f, p, c);
    }
    forall c | c in blocks' && Some(f) != Some(c)
      ensures c in Kids(children', blocks'[c].parent)
    {
      var p := LastStep(children, f, c);
    }
  }

  class Store<Attestation> {
    var blocks: Blocks
    var children: Tree
    var attestations: map<Hash, seq<Attestation>>
    ghost var root: Option<Hash>
    ghost const depth: Hash -> nat

    ghost predicate Valid()
      reads this
    {
      Indexed(blocks, children, root) && Deepening(blocks, depth)
    }

    constructor (ghost depth: Hash -> nat)
      ensures Valid() && this.depth == depth && blocks == map[] && children == map[]
    {
      this.depth := depth;
      blocks := map[];
      children := map[];
      attestations := map[];
      root := None;
    }

    /** `b` has the depth of a child and, if its hash is stored, the parent stored with it. */
    ghost predicate Commits(b: Block)
      reads this
    {
      depth(b.parent) < depth(b.hash) && (b.hash in blocks ==> blocks[b.hash].parent == b.parent)
    }

    /** The index stays consistent if the block's hash commits to its parent. */
    method AddBlock(b: Block, totalDifficulty: Word)
      modifies this
      ensures root == old(root) && attestations == old(attestations)
      ensures old(Valid() && Commits(b)) ==> Valid()
      ensures blocks == old(blocks)[b.hash := BlockInfo(b.parent, totalDifficulty)]
      ensures children == WithChild(old(children), b.parent, b.hash)
    {
      hide Indexed;
      blocks := blocks[b.hash := BlockInfo(b.parent, totalDifficulty)];
      if b.parent !in children { children := children[b.parent := []]; }
      children := children[b.parent := children[b.parent] + [b.hash]];
      assert children == WithChild(old(children), b.parent, b.hash);
      if old(Valid() && Commits(b)) { AddKeepsIndex(old(blocks), old(children), root, b, totalDifficulty); }
    }

    /** Keeps exactly the finalized block and its descendants, and a consistent index of them. */
    method Prune(finalized: Hash)
      requires Valid()
      modifies this
      ensures Valid() && root == Some(finalized)
      ensures forall h :: h in blocks <==> h in old(blocks) && Descends(old(children), finalized, h)
      ensures forall h :: h in children <==> h in old(children) && Descends(old(children), finalized, h)
      ensures forall h :: h in attestations <==> h in old(attestations) && Descends(old(children), finalized, h)
      ensures forall h :: h in blocks ==> blocks[h] == old(blocks)[h]
      ensures forall h :: h in children ==> children[h] == old(children)[h]
      ensures forall h :: h in attestations ==> attestations[h] == old(attestations)[h]
    {
      IndexedIsAcyclic(blocks, children, root, depth);
      var keep := CollectDescendants(children, finalized);
      blocks := map h | h in blocks && h in keep :: blocks[h];
      children := map h | h in children && h in keep :: children[h];
      attestations := map h | h in attestations && h in keep :: attestations[h];
      PruneKeepsIndex(old(blocks), old(children), root, finalized, blocks, children);
      root := Some(finalized);
    }
  }

  // ----- the index against the parent links -----

  /** `path` leads from `a` to `b`, each step from a block's parent to the block. */
  ghost predicate IsLineage(blocks: Blocks, path: seq<Hash>, a: Hash, b: Hash) {
    && |path| > 0 && path[0] == a && path[|path| - 1] == b
    && forall i :: 0 < i < |path| ==> path[i] in blocks && blocks[path[i]].parent == path[i - 1]
  }

  lemma {:induction false} LineageDeepens(blocks: Blocks, depth: Hash -> nat, path: seq<Hash>, a: Hash, b: Hash)
    requires Deepening(blocks, depth) && IsLineage(blocks, path, a, b)
    ensures depth(a) + |path| <= depth(b) + 1
  {
    if |path| > 1 {
      var n := |path| - 1;
      LineageDeepens(blocks, depth, path[..n], a, path[n - 1]);
    }
  }

  lemma PathIsLineage(blocks: Blocks, children: Tree, root: Option<Hash>, path: seq<Hash>, a: Hash, b: Hash)
    requires Indexed(blocks, children, root) && IsPath(children, path, a, b)
    ensures IsLineage(blocks, path, a, b)
  {
    forall i | 0 < i < |path|
      ensures path[i] in blocks && blocks[path[i]].parent == path[i - 1]
    {
      assert path[i - 1 + 1] in Kids(children, path[i - 1]);
    }
  }

  ghost predicate HasLineage(blocks: Blocks, a: Hash, b: Hash) {
    exists path :: IsLineage(blocks, path, a, b)
  }

  /** The block last pruned to is no longer listed under its parent, and `f` is an older block on its chain. */
  ghost predicate PrunesBackward(blocks: Blocks, children: Tree, root: Option<Hash>, f: Hash) {
    && root.Some? && root.value != f && HasLineage(blocks, f, root.value)
    && forall p :: p in children ==> root.value !in children[p]
  }

  lemma LineageIsPath(blocks: Blocks, children: Tree, root: Option<Hash>, path: seq<Hash>, f: Hash, h: Hash)
    requires Indexed(blocks, children, root) && !PrunesBackward(blocks, children, root, f)
    requires IsLineage(blocks, path, f, h) && forall i :: 0 < i < |path| ==> path[i] != f
    ensures IsPath(children, path, f, h)
  {
    forall i | 0 <= i < |path| - 1
      ensures path[i + 1] in Kids(children, path[i])
    {
      assert path[i + 1] in blocks && blocks[path[i + 1]].parent == path[i];
      if root == Some(path[i + 1]) {
        assert IsLineage(blocks, path[..i + 2], f, path[i + 1]);
        var p :| p in children && root.value in children[p];
      }
    }
  }

  /**
   The blocks kept are exactly the finalized block and those whose parent links lead to it, unless pruning
   goes back past the block last pruned to, whose own link was dropped then.
   */
  lemma KeptAreTheLineage(blocks: Blocks, children: Tree, root: Option<Hash>, depth: Hash -> nat, f: Hash)
    requires Indexed(blocks, children, root) && Deepening(blocks, depth)
    ensures (forall h :: Descends(children, f, h) <==> HasLineage(blocks, f, h))
            <==> !PrunesBackward(blocks, children, root, f)
  {
    if PrunesBackward(blocks, children, root, f) {
      if Descends(children, f, root.value) {
        var p := LastStep(children, f, root.value);
      }
    } else {
      forall h
        ensures Descends(children, f, h) <==> HasLineage(blocks, f, h)
      {
        if Descends(children, f, h) {
          var path :| IsPath(children, path, f, h);
          PathIsLineage(blocks, children, root, path, f, h);
        }
        if HasLineage(blocks, f, h) {
          var path :| IsLineage(blocks, path, f, h);
          forall i | 0 < i < |path|
            ensures path[i] != f
          {
            LineageDeepens(blocks, depth, path[..i + 1], f, path[i]);
          }
          LineageIsPath(blocks, children, root, path, f, h);
        }
      }
    }
  }

  lemma FirstStep(tree: Tree, path: seq<Hash>, a: Hash, b: Hash)
    requires IsPath(tree, path, a, b) && |path| > 1
    ensures path[1] in Kids(tree, a)
  {
    assert path[0 + 1] in Kids(tree, path[0]);
  }

  lemma LeafDescends(tree: Tree, a: Hash, h: Hash)
    requires Kids(tree, a) == []
    ensures Descends(tree, a, h) <==> h == a
  {
    DescendsSelf(tree, a);
    if Descends(tree, a, h) {
      var path :| IsPath(tree, path, a, h);
      if |path| > 1 { FirstStep(tree, path, a, h); }
    }
  }

  /** Pruning to a block without children leaves nothing but that block. */
  method PruneToLeaf<A>(s: Store<A>, f: Hash)
    requires s.Valid() && Kids(s.children, f) == []
    modifies s
    ensures s.Valid() && s.root == Some(f)
    ensures s.blocks == if f in old(s.blocks) then map[f := old(s.blocks)[f]] else map[]
    ensures Kids(s.children, f) == [] && forall h :: h in s.children ==> h == f
  {
    hide Descends, Indexed;
    s.Prune(f);
    forall h ensures Descends(old(s.children), f, h) <==> h == f { LeafDescends(old(s.children), f, h); }
  }

  /**
   Block 7 is added and block 8 under it; pruning to 8 drops 7; pruning back to 7 then drops 8, although its
   parent is 7, and leaves nothing.
   */
  method PruneBackwardLoses() returns (s: Store<Word>, ghost between: Blocks)
    ensures 8 in between && HasLineage(between, 7, 8) && s.blocks == map[]
  {
    hide Indexed, Descends;
    s := new Store<Word>(h => h);
    s.AddBlock(Block(7, 0), 1);
    s.AddBlock(Block(8, 7), 2);
    PruneToLeaf(s, 8);
    between := s.blocks;
    assert IsLineage(between, [7, 8], 7, 8);
    PruneToLeaf(s, 7);
  }

  /** In particular when finality moves forward, from a block to itself or to one of its descendants. */
  lemma ForwardIsNotBackward(blocks: Blocks, children: Tree, root: Option<Hash>, depth: Hash -> nat, f: Hash)
    requires Indexed(blocks, children, root) && Deepening(blocks, depth)
    requires root.Some? ==> Descends(children, root.value, f)
    ensures !PrunesBackward(blocks, children, root, f)
  {
    if PrunesBackward(blocks, children, root, f) {
      var up :| IsLineage(blocks, up, f, root.value);
      LineageDeepens(blocks, depth, up, f, root.value);
      var down :| IsPath(children, down, root.value, f);
      PathIsLineage(blocks, children, root, down, root.value, f);
      LineageDeepens(blocks, depth, down, root.value, f);
    }
  }

  // ----- weight is the size of the subtree -----

  ghost function Subtree(tree: Tree, height: Hash -> nat, h: Hash): set<Hash>
    requires Layered(tree, height)
    decreases height(h), 1, 0
  {
    {h} + Subtrees(tree, height, Kids(tree, h), height(h))
  }

  ghost function Subtrees(tree: Tree, height: Hash -> nat, hs: seq<Hash>, bound: nat): set<Hash>
    requires Layered(tree, height) && forall h :: h in hs ==> height(h) < bound
    decreases bound, 0, |hs|
  {
    if hs == [] then {}
    else
      var n := |hs| - 1;
      Subtrees(tree, height, hs[..n], bound) + Subtree(tree, height, hs[n])
  }

  lemma {:induction false} SubtreesMember(tree: Tree, height: Hash -> nat, hs: seq<Hash>, bound: nat, x: Hash)
    requires Layered(tree, height) && forall h :: h in hs ==> height(h) < bound
    ensures x in Subtrees(tree, height, hs, bound) <==> exists c :: c in hs && x in Subtree(tree, height, c)
  {
    if hs != [] {
      var n := |hs| - 1;
      assert hs == hs[..n] + [hs[n]];
      SubtreesMember(tree, height, hs[..n], bound, x);
      if c :| c in hs && x in Subtree(tree, height, c) {
        assert c in hs[..n] || c == hs[n];
      }
    }
  }

  lemma PrependPath(tree: Tree, a: Hash, c: Hash, b: Hash)
    requires c in Kids(tree, a) && Descends(tree, c, b)
    ensures Descends(tree, a, b)
  {
    var path :| IsPath(tree, path, c, b);
    assert IsPath(tree, [a] + path, a, b);
  }

  /** A subtree holds its root's descendants and nothing else. */
  lemma {:induction false} SubtreeIsDescent(tree: Tree, height: Hash -> nat, h: Hash, x: Hash)
    requires Layered(tree, height)
    ensures x in Subtree(tree, height, h) <==> Descends(tree, h, x)
    decreases height(h)
  {
    SubtreesMember(tree, height, Kids(tree, h), height(h), x);
    if x in Subtree(tree, height, h) {
      if x == h {
        DescendsSelf(tree, h);
      } else {
        var c :| c in Kids(tree, h) && x in Subtree(tree, height, c);
        SubtreeIsDescent(tree, height, c, x);
        PrependPath(tree, h, c, x);
      }
    }
    if Descends(tree, h, x) && x != h {
      var path :| IsPath(tree, path, h, x);
      assert path[0 + 1] in Kids(tree, path[0]);
      assert IsPath(tree, path[1..], path[1], x);
      SubtreeIsDescent(tree, height, path[1], x);
    }
  }

  /** Each hash is listed at most once. */
  ghost predicate Forest(tree: Tree) {
    && (forall p, q, c :: p in tree && q in tree && c in tree[p] && c in tree[q] ==> p == q)
    && (forall p, i, j :: p in tree && 0 <= i < j < |tree[p]| ==> tree[p][i] != tree[p][j])
  }

  lemma {:induction false} PathFalls(tree: Tree, height: Hash -> nat, path: seq<Hash>, a: Hash, b: Hash)
    requires Layered(tree, height) && IsPath(tree, path, a, b)
    ensures height(b) <= height(a) && (a != b ==> height(b) < height(a))
  {
    if |path| > 1 {
      var n := |path| - 1;
      assert path[n - 1 + 1] in Kids(tree, path[n - 1]);
      PathFalls(tree, height, path[..n], a, path[n - 1]);
    }
  }

  /** Of two ancestors of one block in a forest, the nearer descends from the farther. */
  lemma {:induction false} AncestorsAreComparable(tree: Tree, short: seq<Hash>, long: seq<Hash>, a: Hash, b: Hash, x: Hash)
    requires Forest(tree) && IsPath(tree, short, a, x) && IsPath(tree, long, b, x) && |short| <= |long|
    ensures Descends(tree, b, a)
  {
    if |short| > 1 {
      var n, m := |short| - 1, |long| - 1;
      assert short[n - 1 + 1] in Kids(tree, short[n - 1]) && long[m - 1 + 1] in Kids(tree, long[m - 1]);
      AncestorsAreComparable(tree, short[..n], long[..m], a, b, short[n - 1]);
    }
  }

  lemma SiblingNotBelow(tree: Tree, height: Hash -> nat, h: Hash, c: Hash, d: Hash)
    requires Forest(tree) && Layered(tree, height) && c in Kids(tree, h) && d in Kids(tree, h) && c != d
    ensures !Descends(tree, c, d)
  {
    if Descends(tree, c, d) {
      var p := LastStep(tree, c, d);
      var path :| IsPath(tree, path, c, p);
      PathFalls(tree, height, path, c, p);
    }
  }

  /** The subtrees of two siblings share nothing. */
  lemma SiblingsAreDisjoint(tree: Tree, height: Hash -> nat, h: Hash, c: Hash, d: Hash)
    requires Forest(tree) && Layered(tree, height) && c in Kids(tree, h) && d in Kids(tree, h) && c != d
    ensures Subtree(tree, height, c) !! Subtree(tree, height, d)
  {
    forall x | x in Subtree(tree, height, c) && x in Subtree(tree, height, d)
      ensures false
    {
      SubtreeIsDescent(tree, height, c, x);
      SubtreeIsDescent(tree, height, d, x);
      SiblingNotBelow(tree, height, h, c, d);
      SiblingNotBelow(tree, height, h, d, c);
      var p :| IsPath(tree, p, c, x);
      var q :| IsPath(tree, q, d, x);
      if |p| <= |q| { AncestorsAreComparable(tree, p, q, c, d, x); } else { AncestorsAreComparable(tree, q, p, d, c, x); }
    }
  }

  lemma RootNotBelow(tree: Tree, height: Hash -> nat, h: Hash)
    requires Layered(tree, height)
    ensures h !in Subtrees(tree, height, Kids(tree, h), height(h))
  {
    SubtreesMember(tree, height, Kids(tree, h), height(h), h);
    if c :| c in Kids(tree, h) && h in Subtree(tree, height, c) {
      SubtreeIsDescent(tree, height, c, h);
      var path :| IsPath(tree, path, c, h);
      PathFalls(tree, height, path, c, h);
    }
  }

  /** In a forest the weight of a block is the number of blocks in its subtree. */
  lemma {:induction false} WeightIsSubtreeSize(tree: Tree, height: Hash -> nat, h: Hash)
    requires Forest(tree) && Layered(tree, height)
    ensures Weight(tree, height, h) == |Subtree(tree, height, h)|
    decreases height(h), |Kids(tree, h)| + 1
  {
    RootNotBelow(tree, height, h);
    assert Kids(tree, h)[..|Kids(tree, h)|] == Kids(tree, h);
    WeightsAreSizes(tree, height, h, |Kids(tree, h)|);
  }

  lemma {:induction false} WeightsAreSizes(tree: Tree, height: Hash -> nat, h: Hash, n: nat)
    requires Forest(tree) && Layered(tree, height) && n <= |Kids(tree, h)|
    ensures Weights(tree, height, Kids(tree, h)[..n], height(h)) == |Subtrees(tree, height, Kids(tree, h)[..n], height(h))|
    decreases height(h), n
  {
    if n > 0 {
      var kids := Kids(tree, h);
      var c, earlier := kids[n - 1], kids[..n - 1];
      assert kids[..n][..n - 1] == earlier;
      WeightsAreSizes(tree, height, h, n - 1);
      WeightIsSubtreeSize(tree, height, c);
      forall x | x in Subtrees(tree, height, earlier, height(h))
        ensures x !in Subtree(tree, height, c)
      {
        SubtreesMember(tree, height, earlier, height(h), x);
        var d :| d in earlier && x in Subtree(tree, height, d);
        SiblingsAreDisjoint(tree, height, h, d, c);
      }
    }
  }

  // ----- greedy heaviest observed subtree -----

  function TreeOf(blocks: seq<Block>): Tree {
    if blocks == [] then map[]
    else
      var n := |blocks| - 1;
      WithChild(TreeOf(blocks[..n]), blocks[n].parent, blocks[n].hash)
  }

  method BuildBlockTree(blocks: seq<Block>) returns (tree: Tree)
    ensures tree == TreeOf(blocks)
  {
    tree := map[];
    for i := 0 to |blocks|
      invariant tree == TreeOf(blocks[..i])
    {
      var b := blocks[i];
      if b.parent !in tree { tree := tree[b.parent := []]; }
      tree := tree[b.parent := tree[b.parent] + [b.hash]];
      assert blocks[..i + 1][..i] == blocks[..i];
    }
    assert blocks[..|blocks|] == blocks;
  }

  /** A hash is listed under a parent exactly when some block says so. */
  /** The hashes of the blocks under a parent, in the order of the blocks. */
  function HashesUnder(blocks: seq<Block>, p: Hash): seq<Hash> {
    if blocks == [] then []
    else if blocks[0].parent == p then [blocks[0].hash] + HashesUnder(blocks[1..], p)
    else HashesUnder(blocks[1..], p)
  }

  lemma {:induction false} HashesUnderAppend(blocks: seq<Block>, b: Block, p: Hash)
    ensures HashesUnder(blocks + [b], p) == HashesUnder(blocks, p) + (if b.parent == p then [b.hash] else [])
  {
    if blocks != [] {
      HashesUnderAppend(blocks[1..], b, p);
      assert (blocks + [b])[1..] == blocks[1..] + [b];
    }
  }

  /** Children are listed in the order of the blocks, which decides between equally heavy ones. */
  lemma {:induction false} TreeKeepsOrder(blocks: seq<Block>, p: Hash)
    ensures Kids(TreeOf(blocks), p) == HashesUnder(blocks, p)
  {
    if blocks != [] {
      var n := |blocks| - 1;
      TreeKeepsOrder(blocks[..n], p);
      HashesUnderAppend(blocks[..n], blocks[n], p);
      assert blocks == blocks[..n] + [blocks[n]];
    }
  }

  lemma {:induction false} TreeListsBlocks(blocks: seq<Block>, p: Hash, c: Hash)
    ensures c in Kids(TreeOf(blocks), p) <==> Block(c, p) in blocks
  {
    if blocks != [] {
      var n := |blocks| - 1;
      assert blocks == blocks[..n] + [blocks[n]];
      TreeListsBlocks(blocks[..n], p, c);
    }
  }

  predicate DistinctHashes(blocks: seq<Block>) {
    forall i, j :: 0 <= i < j < |blocks| ==> blocks[i].hash != blocks[j].hash
  }

  lemma {:induction false} TreeOfIsForest(blocks: seq<Block>)
    requires DistinctHashes(blocks)
    ensures Forest(TreeOf(blocks))
  {
    if blocks != [] {
      var n := |blocks| - 1;
      var tree, before, b := TreeOf(blocks), TreeOf(blocks[..n]), blocks[n];
      TreeOfIsForest(blocks[..n]);
      forall p
        ensures b.hash !in Kids(before, p)
      {
        TreeListsBlocks(blocks[..n], p, b.hash);
      }
      assert forall p :: p != b.parent ==> Kids(tree, p) == Kids(before, p);
      assert Kids(tree, b.parent) == Kids(before, b.parent) + [b.hash];
      assert forall p :: p in tree ==> tree[p] == Kids(tree, p);
      assert forall p :: p in before ==> before[p] == Kids(before, p);
    }
  }

  /** `c` is a child of `p` no lighter than any of its siblings. */
  ghost predicate HeaviestChild(tree: Tree, height: Hash -> nat, p: Hash, c: Hash)
    requires Layered(tree, height)
  {
    c in Kids(tree, p) && forall d :: d in Kids(tree, p) ==> Weight(tree, height, d) <= Weight(tree, height, c)
  }

  /** A path on which every step goes to a heaviest child. */
  ghost predicate GreedyPath(tree: Tree, height: Hash -> nat, path: seq<Hash>, a: Hash, b: Hash)
    requires Layered(tree, height)
  {
    && |path| > 0 && path[0] == a && path[|path| - 1] == b
    && forall i :: 0 <= i < |path| - 1 ==> HeaviestChild(tree, height, path[i], path[i + 1])
  }

  /** The weights of all children of `p` fit 64 bits. */
  ghost predicate KidsFit(tree: Tree, height: Hash -> nat, p: Hash)
    requires Layered(tree, height)
  {
    forall c :: c in Kids(tree, p) ==> Weight(tree, height, c) <= U64_MAX
  }

  /** The first of the heaviest children; `None` is an overflow. */
  method PickHeaviest(tree: Tree, ghost height: Hash -> nat, p: Hash) returns (r: Option<Hash>)
    requires Layered(tree, height) && Kids(tree, p) != []
    ensures r == None <==> !KidsFit(tree, height, p)
    ensures r.Some? ==> HeaviestChild(tree, height, p, r.value)
    ensures r.Some? ==> exists i :: && 0 <= i < |Kids(tree, p)| && Kids(tree, p)[i] == r.value
                                    && forall j :: 0 <= j < i ==> Weight(tree, height, Kids(tree, p)[j]) < Weight(tree, height, r.value)
  {
    hide Weight;
    var kids := tree[p];
    var c := kids[0];
    ghost var at := 0;
    var first := CalculateSubtreeWeight(tree, height, c);
    if first == None { return None; }
    var heaviest := first.value;
    for i := 1 to |kids|
      invariant 0 <= at < i && kids[at] == c && heaviest == Weight(tree, height, c) <= U64_MAX
      invariant forall j :: 0 <= j < at ==> Weight(tree, height, kids[j]) < heaviest
      invariant forall j :: 0 <= j < i ==> Weight(tree, height, kids[j]) <= heaviest
    {
      var weight := CalculateSubtreeWeight(tree, height, kids[i]);
      if weight == None { return None; }
      if weight.value > heaviest { c, heaviest, at := kids[i], weight.value, i; }
    }
    return Some(c);
  }

  /**
   The descent from `start`. It aborts exactly when the weight of a child of `start` does not fit 64 bits.
   Otherwise it ends at a leaf of the tree reached by going to a heaviest child at every step, and returns
   the block with that hash; it finds none exactly when `start` itself is a leaf and no block has its hash.
   */
  method DescendHeaviest(blocks: seq<Block>, start: Hash, ghost height: Hash -> nat)
    returns (ok: bool, r: Option<Block>, ghost path: seq<Hash>)
    requires Layered(TreeOf(blocks), height)
    ensures ok <==> KidsFit(TreeOf(blocks), height, start)
    ensures ok ==> path != [] && GreedyPath(TreeOf(blocks), height, path, start, path[|path| - 1])
    ensures ok ==> Kids(TreeOf(blocks), path[|path| - 1]) == []
    ensures ok && r.Some? ==> r.value in blocks && r.value.hash == path[|path| - 1]
    ensures ok ==> (r == None <==> Kids(TreeOf(blocks), start) == [] && forall b :: b in blocks ==> b.hash != start)
  {
    hide Weight, TreeOf;
    var tree := BuildBlockTree(blocks);
    var current := start;
    path := [start];
    while Kids(tree, current) != []
      invariant path != [] && GreedyPath(tree, height, path, start, current)
      invariant current != start ==> exists b :: b in blocks && b.hash == current
      invariant |path| == 1 <==> current == start
      invariant |path| == 1 || Kids(tree, start) != []
      invariant |path| > 1 ==> KidsFit(tree, height, start) && Weight(tree, height, current) <= U64_MAX
      decreases height(current)
    {
      if |path| > 1 { LightKidsFit(tree, height, current); }
      var next := PickHeaviest(tree, height, current);
      if next == None { return false, None, path; }
      GreedyFalls(tree, height, path, start, current);
      TreeListsBlocks(blocks, current, next.value);
      path := path + [next.value];
      current := next.value;
    }
    for i := 0 to |blocks|
      invariant forall j :: 0 <= j < i ==> blocks[j].hash != current
    {
      if blocks[i].hash == current { return true, Some(blocks[i]), path; }
    }
    return true, None, path;
  }

  lemma LightKidsFit(tree: Tree, height: Hash -> nat, p: Hash)
    requires Layered(tree, height) && Weight(tree, height, p) <= U64_MAX
    ensures KidsFit(tree, height, p)
  {
    hide Weight;
    forall c | c in Kids(tree, p)
      ensures Weight(tree, height, c) <= U64_MAX
    {
      ChildIsLighter(tree, height, p, c);
    }
  }

  lemma {:induction false} GreedyFalls(tree: Tree, height: Hash -> nat, path: seq<Hash>, a: Hash, b: Hash)
    requires Layered(tree, height) && GreedyPath(tree, height, path, a, b)
    ensures height(b) <= height(a)
  {
    if |path| > 1 {
      var n := |path| - 1;
      assert HeaviestChild(tree, height, path[n - 1], path[n - 1 + 1]);
      GreedyFalls(tree, height, path[..n], a, path[n - 1]);
    }
  }
}
