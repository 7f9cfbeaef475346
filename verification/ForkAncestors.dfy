/** Finding the block where chains meet, from which the heaviest subtree is followed. */
module ForkAncestors {
  import opened Wrappers
  import opened Words
  import opened ForkChoice

  const NO_HASH: Hash := 0

  /** `h` and what its parent links lead to, up to the zero hash or the first hash that is not stored. */
  ghost function Chain(store: Blocks, depth: Hash -> nat, h: Hash): set<Hash>
    requires Deepening(store, depth)
    decreases depth(h)
  {
    if h == NO_HASH then {} else {h} + (if h in store then Chain(store, depth, store[h].parent) else {})
  }

  /** The first hash from `h` up that is in `stop`, or where its chain ends. */
  ghost function Climb(store: Blocks, depth: Hash -> nat, h: Hash, stop: set<Hash>): Hash
    requires Deepening(store, depth)
    decreases depth(h)
  {
    if h == NO_HASH || h in stop || h !in store then h else Climb(store, depth, store[h].parent, stop)
  }

  lemma {:induction false} ChainIsTransitive(store: Blocks, depth: Hash -> nat, a: Hash, b: Hash)
    requires Deepening(store, depth) && a in Chain(store, depth, b)
    ensures Chain(store, depth, a) <= Chain(store, depth, b)
    decreases depth(b)
  {
    if a != b { ChainIsTransitive(store, depth, a, store[b].parent); }
  }

  lemma {:induction false} SelfInChain(store: Blocks, depth: Hash -> nat, h: Hash)
    requires Deepening(store, depth)
    ensures h in Chain(store, depth, h) <==> h != NO_HASH
    ensures forall a :: a in Chain(store, depth, h) ==> a != NO_HASH
    decreases depth(h)
  {
    if h != NO_HASH && h in store { SelfInChain(store, depth, store[h].parent); }
  }

  /** Climbing finds the nearest hash of the chain that is in `stop`, if there is one. */
  lemma {:induction false} ClimbIsNearest(store: Blocks, depth: Hash -> nat, h: Hash, stop: set<Hash>)
    requires Deepening(store, depth) && NO_HASH !in stop
    ensures var r := Climb(store, depth, h, stop);
            && (r in stop ==> r in Chain(store, depth, h))
            && forall a :: a in stop && a in Chain(store, depth, h) ==> r in stop && a in Chain(store, depth, r)
    decreases depth(h)
  {
    SelfInChain(store, depth, h);
    if h != NO_HASH && h !in stop && h in store { ClimbIsNearest(store, depth, store[h].parent, stop); }
  }

  /**
   A chain that does not meet `stop` is climbed to its end: the zero hash if every hash of it is stored, and
   otherwise the one hash of it that is not.
   */
  lemma {:induction false} ClimbEnds(store: Blocks, depth: Hash -> nat, h: Hash, stop: set<Hash>)
    requires Deepening(store, depth) && Chain(store, depth, h) !! stop && NO_HASH !in stop
    ensures var r := Climb(store, depth, h, stop);
            if forall a :: a in Chain(store, depth, h) ==> a in store then r == NO_HASH
            else r in Chain(store, depth, h) && r !in store && forall a :: a in Chain(store, depth, h) && a !in store ==> a == r
    decreases depth(h)
  {
    SelfInChain(store, depth, h);
    if h != NO_HASH && h in store { ClimbEnds(store, depth, store[h].parent, stop); }
  }

  /** A chain is what stored parent links lead to from its start, without the zero hash. */
  lemma {:induction false} ChainIsLineage(store: Blocks, depth: Hash -> nat, a: Hash, h: Hash)
    requires Deepening(store, depth)
    ensures a in Chain(store, depth, h) <==> exists path :: IsLineage(store, path, a, h) && NO_HASH !in path
    decreases depth(h)
  {
    if a in Chain(store, depth, h) {
      if a == h {
        SelfInChain(store, depth, h);
        assert IsLineage(store, [h], a, h);
      } else {
        ChainIsLineage(store, depth, a, store[h].parent);
        var path :| IsLineage(store, path, a, store[h].parent) && NO_HASH !in path;
        assert IsLineage(store, path + [h], a, h);
      }
    }
    if path :| IsLineage(store, path, a, h) && NO_HASH !in path {
      var n := |path| - 1;
      assert path[n] == h;
      if n > 0 {
        assert IsLineage(store, path[..n], a, store[h].parent);
        ChainIsLineage(store, depth, a, store[h].parent);
      }
    }
  }

  /** Candidates under parents 9 and 8 that nobody stored: the start is 8, under which the second block lies. */
  lemma UnstoredParents(depth: Hash -> nat)
    ensures Deepening(map[], depth) && CommonAncestor(map[], depth, [Block(5, 9), Block(6, 8)]) == 8
  {
    assert Chain(map[], depth, 9) == {9};
  }

  /** The ancestors of the first block, collected in a loop. */
  method CollectAncestors(store: Blocks, ghost depth: Hash -> nat, h: Hash) returns (all: set<Hash>, end: Hash)
    requires Deepening(store, depth)
    ensures all == Chain(store, depth, h) && end == Climb(store, depth, h, {})
  {
    all, end := {}, h;
    while end != NO_HASH
      invariant all + Chain(store, depth, end) == Chain(store, depth, h)
      invariant Climb(store, depth, end, {}) == Climb(store, depth, h, {})
      decreases depth(end)
    {
      all := all + {end};
      if end !in store { return; }
      end := store[end].parent;
    }
  }

  method ClimbTo(store: Blocks, ghost depth: Hash -> nat, h: Hash, stop: set<Hash>) returns (r: Hash)
    requires Deepening(store, depth)
    ensures r == Climb(store, depth, h, stop)
  {
    r := h;
    while r != NO_HASH && r !in stop
      invariant Climb(store, depth, r, stop) == Climb(store, depth, h, stop)
      decreases depth(r)
    {
      if r !in store { return; }
      r := store[r].parent;
    }
  }

  /** Where the chain of `b` meets that of the first block. */
  ghost function Meets(store: Blocks, depth: Hash -> nat, blocks: seq<Block>, b: Block): Hash
    requires Deepening(store, depth) && blocks != []
  {
    Climb(store, depth, b.parent, Chain(store, depth, blocks[0].parent))
  }

  /** The search's answer: where the last block's chain meets the first's, or where the only block's ends. */
  ghost function CommonAncestor(store: Blocks, depth: Hash -> nat, blocks: seq<Block>): Hash
    requires Deepening(store, depth) && blocks != []
  {
    if |blocks| == 1 then Climb(store, depth, blocks[0].parent, {})
    else Meets(store, depth, blocks, blocks[|blocks| - 1])
  }

  /** The loop over the blocks; each overwrites the answer of the one before. `None` is the error for no blocks. */
  method FindCommonAncestor(store: Blocks, ghost depth: Hash -> nat, blocks: seq<Block>) returns (r: Option<Hash>)
    requires Deepening(store, depth)
    ensures blocks == [] ==> r == None
    ensures blocks != [] ==> r == Some(CommonAncestor(store, depth, blocks))
  {
    if blocks == [] { return None; }
    var ancestors, current := CollectAncestors(store, depth, blocks[0].parent);
    for i := 1 to |blocks|
      invariant current == CommonAncestor(store, depth, blocks[..i])
    {
      current := ClimbTo(store, depth, blocks[i].parent, ancestors);
    }
    assert blocks[..|blocks|] == blocks;
    return Some(current);
  }

  /** For two blocks whose chains meet, the answer is on both, and everything else on both lies above it. */
  lemma TwoBlocksMeet(store: Blocks, depth: Hash -> nat, a: Block, b: Block, x: Hash)
    requires Deepening(store, depth)
    requires x in Chain(store, depth, a.parent) && x in Chain(store, depth, b.parent)
    ensures var r := CommonAncestor(store, depth, [a, b]);
            r in Chain(store, depth, a.parent) && r in Chain(store, depth, b.parent) && x in Chain(store, depth, r)
  {
    SelfInChain(store, depth, a.parent);
    ClimbIsNearest(store, depth, b.parent, Chain(store, depth, a.parent));
  }

  /** The answer is an ancestor of every block. */
  ghost predicate CommonToAll(store: Blocks, depth: Hash -> nat, blocks: seq<Block>)
    requires Deepening(store, depth) && blocks != []
  {
    forall i :: 0 <= i < |blocks| ==> CommonAncestor(store, depth, blocks) in Chain(store, depth, blocks[i].parent)
  }

  /**
   The answer is an ancestor of every block exactly when every block meets the first one's chain at the place
   where the last block does, or below it.
   */
  lemma CommonToAllUnless(store: Blocks, depth: Hash -> nat, blocks: seq<Block>)
    requires Deepening(store, depth) && |blocks| >= 2
    ensures CommonToAll(store, depth, blocks) <==>
            forall i :: 0 <= i < |blocks| ==>
              var m := Meets(store, depth, blocks, blocks[i]);
              m in Chain(store, depth, blocks[0].parent) && CommonAncestor(store, depth, blocks) in Chain(store, depth, m)
  {
    hide Chain, Climb;
    var first, r := Chain(store, depth, blocks[0].parent), CommonAncestor(store, depth, blocks);
    SelfInChain(store, depth, blocks[0].parent);
    forall i | 0 <= i < |blocks|
      ensures r in first && r in Chain(store, depth, blocks[i].parent) ==>
                Meets(store, depth, blocks, blocks[i]) in first && r in Chain(store, depth, Meets(store, depth, blocks, blocks[i]))
      ensures Meets(store, depth, blocks, blocks[i]) in first && r in Chain(store, depth, Meets(store, depth, blocks, blocks[i])) ==>
                r in Chain(store, depth, blocks[i].parent)
    {
      var m := Meets(store, depth, blocks, blocks[i]);
      ClimbIsNearest(store, depth, blocks[i].parent, first);
      if m in first { ChainIsTransitive(store, depth, m, blocks[i].parent); }
    }
    assert CommonToAll(store, depth, blocks) ==> r in Chain(store, depth, blocks[0].parent);
  }

  /** With 2 stored under 1: blocks under 2, 1 and 2 make the answer 2, which is no ancestor of the second. */
  lemma AnswerSkipsBlock(depth: Hash -> nat)
    requires depth(0) < depth(1) < depth(2)
    ensures var store: Blocks := map[1 := BlockInfo(0, 1), 2 := BlockInfo(1, 2)];
            var blocks := [Block(5, 2), Block(6, 1), Block(7, 2)];
            && Deepening(store, depth) && CommonAncestor(store, depth, blocks) == 2
            && !CommonToAll(store, depth, blocks)
  {
    var store: Blocks := map[1 := BlockInfo(0, 1), 2 := BlockInfo(1, 2)];
    var blocks := [Block(5, 2), Block(6, 1), Block(7, 2)];
    assert Chain(store, depth, 0) == {} && Chain(store, depth, 1) == {1} && Chain(store, depth, 2) == {2, 1};
    assert CommonAncestor(store, depth, blocks) == 2;
    assert blocks[1].parent == 1;
  }

  /**
   The heaviest-subtree rule: from the common ancestor found, the descent of `DescendHeaviest`. No blocks are
   an error.
   */
  method SelectGhost(store: Blocks, ghost depth: Hash -> nat, blocks: seq<Block>, ghost height: Hash -> nat)
    returns (ok: bool, r: Option<Block>, ghost path: seq<Hash>)
    requires Deepening(store, depth) && Layered(TreeOf(blocks), height)
    ensures blocks == [] ==> ok && r == None
    ensures blocks != [] ==>
              var start, tree := CommonAncestor(store, depth, blocks), TreeOf(blocks);
              && (ok <==> KidsFit(tree, height, start))
              && (ok ==> path != [] && GreedyPath(tree, height, path, start, path[|path| - 1]) && Kids(tree, path[|path| - 1]) == [])
              && (ok && r.Some? ==> r.value in blocks && r.value.hash == path[|path| - 1])
              && (ok ==> (r == None <==> Kids(tree, start) == [] && forall b :: b in blocks ==> b.hash != start))
  {
    hide TreeOf, KidsFit, GreedyPath;
    path := [];
    var start := FindCommonAncestor(store, depth, blocks);
    if start == None { return true, None, []; }
    ok, r, path := DescendHeaviest(blocks, start.value, height);
  }
}
