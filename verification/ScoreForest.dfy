/** Ownership of blocks by tabs and by other blocks (pkg/starobj/wtype.go, pkg/score/block.go): parent references,
    child lists, and the part of the forest below a block or a tab. */
module ScoreForest {
  import opened Slices

  type Id = string

  /** A parsed ParentORef. */
  datatype ORef = TabRef(id: Id) | BlockRef(id: Id) | NoRef

  datatype Block = Block(parent: ORef, subBlockIds: seq<Id>)

  datatype Tab = Tab(blockIds: seq<Id>, layoutState: Id)

  datatype Forest = Forest(tabs: map<Id, Tab>, blocks: map<Id, Block>)

  // ---------------------------------------------------------------- the invariant

  function Children(f: Forest, parent: ORef): seq<Id> {
    match parent
    case TabRef(t) => if t in f.tabs then f.tabs[t].blockIds else []
    case BlockRef(b) => if b in f.blocks then f.blocks[b].subBlockIds else []
    case NoRef => []
  }

  predicate Exists(f: Forest, o: ORef) {
    match o
    case TabRef(t) => t in f.tabs
    case BlockRef(b) => b in f.blocks
    case NoRef => false
  }

  /** Every list names, once each, exactly the blocks whose parent it is. */
  ghost predicate ListsAreChildren(f: Forest) {
    forall o: ORef :: ListIsChildren(f, o)
  }

  ghost predicate ListIsChildren(f: Forest, o: ORef) {
    NoDups(Children(f, o)) && forall b :: b in Children(f, o) <==> b in f.blocks && f.blocks[b].parent == o
  }

  /** Every parent exists, and parents have smaller ranks than their children. */
  ghost predicate Ranked(f: Forest, rank: map<Id, nat>) {
    forall b :: b in f.blocks ==> BlockRanked(f, rank, b)
  }

  ghost predicate BlockRanked(f: Forest, rank: map<Id, nat>, b: Id)
    requires b in f.blocks
  {
    && b in rank
    && match f.blocks[b].parent
       case TabRef(t) => t in f.tabs
       case BlockRef(p) => p in f.blocks && p in rank && rank[p] < rank[b]
       case NoRef => false
  }

  ghost predicate IsForest(f: Forest, rank: map<Id, nat>) {
    ListsAreChildren(f) && Ranked(f, rank)
  }

  /** A block is listed in one place only: by the parent it names, once. */
  lemma ListedOnce(f: Forest, rank: map<Id, nat>, b: Id, o: ORef, i: nat)
    requires IsForest(f, rank) && i < |Children(f, o)| && Children(f, o)[i] == b
    ensures b in f.blocks && f.blocks[b].parent == o
    ensures forall o', j :: 0 <= j < |Children(f, o')| && Children(f, o')[j] == b ==> o' == o && j == i
  {
    assert ListIsChildren(f, o) && b in Children(f, o);
    forall o': ORef, j | 0 <= j < |Children(f, o')| && Children(f, o')[j] == b
      ensures o' == o && j == i
    {
      assert ListIsChildren(f, o') && b in Children(f, o');
    }
  }

  // ---------------------------------------------------------------- below a block, below a tab

  /** Following parents from b leads to x. */
  ghost predicate Below(f: Forest, rank: map<Id, nat>, b: Id, x: Id)
    requires Ranked(f, rank) && b in f.blocks
    decreases BlockRanked(f, rank, b), rank[b]
  {
    b == x || (f.blocks[b].parent.BlockRef? && Below(f, rank, f.blocks[b].parent.id, x))
  }

  ghost function Subtree(f: Forest, rank: map<Id, nat>, x: Id): set<Id>
    requires Ranked(f, rank)
  {
    set b | b in f.blocks && Below(f, rank, b, x)
  }

  /** The tab that following parents from b ends at. */
  ghost function TabOf(f: Forest, rank: map<Id, nat>, b: Id): Id
    requires Ranked(f, rank) && b in f.blocks
    decreases BlockRanked(f, rank, b), rank[b]
  {
    match f.blocks[b].parent
    case TabRef(t) => t
    case BlockRef(p) => TabOf(f, rank, p)
    case NoRef => ""
  }

  /** Every block belongs, through its parents, to an existing tab; and no block is above itself. */
  lemma {:induction false} NoCycleNoOrphan(f: Forest, rank: map<Id, nat>, b: Id)
    requires IsForest(f, rank) && b in f.blocks
    ensures TabOf(f, rank, b) in f.tabs
    ensures f.blocks[b].parent.BlockRef? ==> !Below(f, rank, f.blocks[b].parent.id, b)
    decreases BlockRanked(f, rank, b), rank[b]
  {
    assert BlockRanked(f, rank, b);
    if f.blocks[b].parent.BlockRef? {
      NoCycleNoOrphan(f, rank, f.blocks[b].parent.id);
      if Below(f, rank, f.blocks[b].parent.id, b) {
        BelowIsDeeper(f, rank, f.blocks[b].parent.id, b);
      }
    }
  }

  lemma {:induction false} BelowIsDeeper(f: Forest, rank: map<Id, nat>, b: Id, x: Id)
    requires Ranked(f, rank) && b in f.blocks && Below(f, rank, b, x)
    ensures x in f.blocks && x in rank && b in rank && (b == x || rank[x] < rank[b])
    decreases BlockRanked(f, rank, b), rank[b]
  {
    assert BlockRanked(f, rank, b);
    if b != x {
      BelowIsDeeper(f, rank, f.blocks[b].parent.id, x);
    }
  }

  /** A block below another is that block or below one of its listed children. */
  lemma {:induction false} BelowViaChild(f: Forest, rank: map<Id, nat>, b: Id, x: Id)
    requires IsForest(f, rank) && b in f.blocks && x in f.blocks
    ensures Below(f, rank, b, x) <==> b == x || exists j: nat :: ViaChild(f, rank, b, f.blocks[x].subBlockIds, j)
    decreases BlockRanked(f, rank, b), rank[b]
  {
    var kids := f.blocks[x].subBlockIds;
    assert ListIsChildren(f, BlockRef(x)) && Children(f, BlockRef(x)) == kids;
    assert BlockRanked(f, rank, b);
    if b != x && f.blocks[b].parent.BlockRef? {
      var p := f.blocks[b].parent.id;
      BelowViaChild(f, rank, p, x);
      if p == x {
        assert b in kids;
        var j :| 0 <= j < |kids| && kids[j] == b;
        assert ViaChild(f, rank, b, kids, j);
      } else if Below(f, rank, p, x) {
        var j: nat :| ViaChild(f, rank, p, kids, j);
        assert ViaChild(f, rank, b, kids, j);
      }
    }
    if j: nat :| ViaChild(f, rank, b, kids, j) {
      assert kids[j] in kids;
      ChildAbove(f, rank, b, kids[j], x);
    }
  }

  /** b is, or is below, the j-th of the listed blocks. */
  ghost predicate ViaChild(f: Forest, rank: map<Id, nat>, b: Id, kids: seq<Id>, j: nat)
    requires Ranked(f, rank) && b in f.blocks
  {
    j < |kids| && Below(f, rank, b, kids[j])
  }

  lemma {:induction false} ChildAbove(f: Forest, rank: map<Id, nat>, b: Id, c: Id, x: Id)
    requires Ranked(f, rank) && b in f.blocks && Below(f, rank, b, c)
    requires c in f.blocks && f.blocks[c].parent == BlockRef(x)
    ensures Below(f, rank, b, x)
    decreases BlockRanked(f, rank, b), rank[b]
  {
    assert BlockRanked(f, rank, b) && BlockRanked(f, rank, c);
    if b == c {
      assert Below(f, rank, x, x);
    } else {
      ChildAbove(f, rank, f.blocks[b].parent.id, c, x);
    }
  }

  /** The blocks of a tab are those below the blocks it lists. */
  lemma {:induction false} InTabViaChild(f: Forest, rank: map<Id, nat>, b: Id, t: Id)
    requires IsForest(f, rank) && b in f.blocks && t in f.tabs
    ensures TabOf(f, rank, b) == t <==> exists j: nat :: ViaChild(f, rank, b, f.tabs[t].blockIds, j)
    decreases BlockRanked(f, rank, b), rank[b]
  {
    var kids := f.tabs[t].blockIds;
    assert ListIsChildren(f, TabRef(t)) && Children(f, TabRef(t)) == kids;
    assert BlockRanked(f, rank, b);
    match f.blocks[b].parent
    case TabRef(u) =>
      if u == t {
        assert b in kids;
        var j :| 0 <= j < |kids| && kids[j] == b;
        assert ViaChild(f, rank, b, kids, j);
      }
    case BlockRef(p) =>
      InTabViaChild(f, rank, p, t);
      if TabOf(f, rank, p) == t {
        var j: nat :| ViaChild(f, rank, p, kids, j);
        assert ViaChild(f, rank, b, kids, j);
      }
      if j: nat :| ViaChild(f, rank, b, kids, j) {
        assert kids[j] in kids;
        assert ViaChild(f, rank, p, kids, j);
      }
    case NoRef =>
  }

  // ---------------------------------------------------------------- taking parts out

  /** The forest without a leaf block, which is taken off its parent's list. */
  function WithoutLeaf(f: Forest, b: Id): Forest
    requires b in f.blocks
  {
    var f' := Unlisted(f, f.blocks[b].parent, b);
    f'.(blocks := f'.blocks - {b})
  }

  function Unlisted(f: Forest, parent: ORef, b: Id): Forest {
    match parent
    case TabRef(t) =>
      if t in f.tabs then f.(tabs := f.tabs[t := f.tabs[t].(blockIds := Remove(f.tabs[t].blockIds, b))])
      else f
    case BlockRef(p) =>
      if p in f.blocks then f.(blocks := f.blocks[p := f.blocks[p].(subBlockIds := Remove(f.blocks[p].subBlockIds, b))])
      else f
    case NoRef => f
  }

  /** f' is f without the blocks in gone; the owner's list has become rest, and all else is as it was. */
  ghost predicate Without(f: Forest, gone: set<Id>, owner: ORef, rest: seq<Id>, f': Forest) {
    && f'.tabs.Keys == f.tabs.Keys
    && f'.blocks.Keys == f.blocks.Keys - gone
    && (forall t :: t in f.tabs ==>
        f'.tabs[t] == if owner == TabRef(t) then f.tabs[t].(blockIds := rest) else f.tabs[t])
    && (forall b :: b in f'.blocks ==>
          f'.blocks[b] == if owner == BlockRef(b) then f.blocks[b].(subBlockIds := rest) else f.blocks[b])
  }

  /** Deleting block x: its subtree is gone, and its parent no longer lists it. */
  ghost predicate Pruned(f: Forest, rank: map<Id, nat>, x: Id, f': Forest)
    requires Ranked(f, rank) && x in f.blocks
  {
    Without(f, Subtree(f, rank, x), f.blocks[x].parent, Remove(Children(f, f.blocks[x].parent), x), f')
  }

  /** The blocks below the first k of the listed ones. */
  ghost function BelowFirst(f: Forest, rank: map<Id, nat>, kids: seq<Id>, k: nat): set<Id>
    requires Ranked(f, rank)
  {
    set b | b in f.blocks && exists j: nat :: j < k && ViaChild(f, rank, b, kids, j)
  }

  /** The first k blocks listed by the owner are deleted, with all below them. */
  ghost predicate PrunedFirst(f: Forest, rank: map<Id, nat>, owner: ORef, k: nat, f': Forest)
    requires Ranked(f, rank) && k <= |Children(f, owner)|
  {
    Without(f, BelowFirst(f, rank, Children(f, owner), k), owner, Children(f, owner)[k..], f')
  }

  lemma PrunedNone(f: Forest, rank: map<Id, nat>, owner: ORef)
    requires Ranked(f, rank)
    ensures PrunedFirst(f, rank, owner, 0, f)
  {
    assert BelowFirst(f, rank, Children(f, owner), 0) == {};
    assert Children(f, owner)[0..] == Children(f, owner);
  }

  /** In a part of the forest that holds the parents of all its blocks, being below means what it did. */
  lemma {:induction false} BelowInPart(f: Forest, part: Forest, rank: map<Id, nat>, b: Id, x: Id)
    requires Ranked(f, rank) && Ranked(part, rank) && part.blocks.Keys <= f.blocks.Keys && b in part.blocks
    requires forall c :: c in part.blocks ==> part.blocks[c].parent == f.blocks[c].parent
    ensures Below(part, rank, b, x) <==> Below(f, rank, b, x)
    decreases BlockRanked(f, rank, b), rank[b]
  {
    assert BlockRanked(f, rank, b) && BlockRanked(part, rank, b);
    if b != x && f.blocks[b].parent.BlockRef? {
      BelowInPart(f, part, rank, f.blocks[b].parent.id, x);
    }
  }

  /** The next listed block is deleted. */
  lemma {:induction false} PruneNext(f: Forest, rank: map<Id, nat>, owner: ORef, k: nat, part: Forest, part': Forest)
    requires IsForest(f, rank) && IsForest(part, rank) && k < |Children(f, owner)| &&
      PrunedFirst(f, rank, owner, k, part)
    requires OwnerStays(f, rank, owner)
    ensures Children(f, owner)[k] in part.blocks
    ensures Pruned(part, rank, Children(f, owner)[k], part') ==> PrunedFirst(f, rank, owner, k + 1, part')
  {
    hide Ranked, Below;
    var kids := Children(f, owner);
    var c := kids[k];
    assert ListIsChildren(f, owner) && c in kids && f.blocks[c].parent == owner;
    OwnerPart(f, rank, owner, k, part);
    assert ListIsChildren(part, owner) && c == Children(part, owner)[0] && c in Children(part, owner);
    assert Remove(Children(part, owner), c) == kids[k..][1..] == kids[k + 1..];
    if Pruned(part, rank, c, part') {
      forall b | b in part.blocks
        ensures Below(part, rank, b, c) <==> Below(f, rank, b, c)
      {
        BelowInPart(f, part, rank, b, c);
      }
      BelowFirstStep(f, rank, kids, k);
    }
  }

  lemma BelowFirstStep(f: Forest, rank: map<Id, nat>, kids: seq<Id>, k: nat)
    requires Ranked(f, rank) && k < |kids|
    ensures BelowFirst(f, rank, kids, k + 1) == BelowFirst(f, rank, kids, k) + Subtree(f, rank, kids[k])
  {
    hide Ranked, Below;
    forall b | b in f.blocks && Below(f, rank, b, kids[k])
      ensures b in BelowFirst(f, rank, kids, k + 1)
    {
      assert ViaChild(f, rank, b, kids, k);
    }
  }

  /** An owner that is a block is not below its own children. */
  ghost predicate OwnerStays(f: Forest, rank: map<Id, nat>, owner: ORef)
    requires Ranked(f, rank)
  {
    match owner
    case TabRef(t) => t in f.tabs
    case BlockRef(p) =>
      p in f.blocks && forall k: nat :: k <= |Children(f, owner)| ==> p !in BelowFirst(f, rank, Children(f, owner), k)
    case NoRef => false
  }

  lemma OwnerPart(f: Forest, rank: map<Id, nat>, owner: ORef, k: nat, part: Forest)
    requires Ranked(f, rank) && OwnerStays(f, rank, owner) && k <= |Children(f, owner)| &&
      PrunedFirst(f, rank, owner, k, part)
    ensures Children(part, owner) == Children(f, owner)[k..]
    ensures forall b :: b in part.blocks ==> b in f.blocks && part.blocks[b].parent == f.blocks[b].parent
  {
    hide Ranked;
  }

  lemma {:induction false} BlockStays(f: Forest, rank: map<Id, nat>, x: Id)
    requires IsForest(f, rank) && x in f.blocks
    ensures OwnerStays(f, rank, BlockRef(x))
  {
    var kids := Children(f, BlockRef(x));
    assert ListIsChildren(f, BlockRef(x));
    forall j: nat | j < |kids|
      ensures !ViaChild(f, rank, x, kids, j)
    {
      assert kids[j] in kids && BlockRanked(f, rank, kids[j]);
      if Below(f, rank, x, kids[j]) {
        BelowIsDeeper(f, rank, x, kids[j]);
      }
    }
  }

  /** Once all its children are deleted, a block is a leaf, and taking it out completes its deletion. */
  lemma {:induction false} LeafLast(f: Forest, rank: map<Id, nat>, x: Id, part: Forest)
    requires IsForest(f, rank) && x in f.blocks && PrunedFirst(f, rank, BlockRef(x), |f.blocks[x].subBlockIds|, part)
    ensures x in part.blocks && part.blocks[x].subBlockIds == []
    ensures Pruned(f, rank, x, WithoutLeaf(part, x))
  {
    var kids := f.blocks[x].subBlockIds;
    BlockStays(f, rank, x);
    assert kids == Children(f, BlockRef(x)) && x !in BelowFirst(f, rank, kids, |kids|);
    SubtreeIsKids(f, rank, x);
    var parent := f.blocks[x].parent;
    assert BlockRanked(f, rank, x) && x in Subtree(f, rank, x);
    if parent.BlockRef? {
      NoCycleNoOrphan(f, rank, x);
      assert parent.id !in Subtree(f, rank, x);
    }
  }

  lemma SubtreeIsKids(f: Forest, rank: map<Id, nat>, x: Id)
    requires IsForest(f, rank) && x in f.blocks
    ensures Subtree(f, rank, x) == BelowFirst(f, rank, f.blocks[x].subBlockIds, |f.blocks[x].subBlockIds|) + {x}
  {
    var kids := f.blocks[x].subBlockIds;
    forall b | b in f.blocks
      ensures b in Subtree(f, rank, x) <==> b == x || b in BelowFirst(f, rank, kids, |kids|)
    {
      BelowViaChild(f, rank, b, x);
      if j: nat :| ViaChild(f, rank, b, kids, j) {
        assert j < |kids|;
      }
    }
  }

  // ---------------------------------------------------------------- what keeps a forest a forest

  lemma {:induction false} LeafKeepsForest(f: Forest, rank: map<Id, nat>, x: Id)
    requires IsForest(f, rank) && x in f.blocks && f.blocks[x].subBlockIds == []
    ensures IsForest(WithoutLeaf(f, x), rank)
  {
    hide Ranked, ListIsChildren, WithoutLeaf;
    var f' := WithoutLeaf(f, x);
    forall o: ORef
      ensures ListIsChildren(f', o)
    {
      LeafList(f, rank, x, o);
    }
    LeafRanked(f, rank, x);
  }

  /** What taking out a leaf does to keys, parents and one list. */
  lemma LeafFacts(f: Forest, x: Id, o: ORef)
    requires x in f.blocks && f.blocks[x].subBlockIds == [] && f.blocks[x].parent != BlockRef(x)
    ensures var f' := WithoutLeaf(f, x);
            && f'.tabs.Keys == f.tabs.Keys && f'.blocks.Keys == f.blocks.Keys - {x}
            && (forall b :: b in f'.blocks ==> f'.blocks[b].parent == f.blocks[b].parent)
            && Children(f', o) == if o == f.blocks[x].parent then Remove(Children(f, o), x) else Children(f, o)
  {
  }

  lemma LeafList(f: Forest, rank: map<Id, nat>, x: Id, o: ORef)
    requires IsForest(f, rank) && x in f.blocks && f.blocks[x].subBlockIds == []
    ensures ListIsChildren(WithoutLeaf(f, x), o)
  {
    assert BlockRanked(f, rank, x) && ListIsChildren(f, o);
    hide Ranked, ListsAreChildren, NoDups, WithoutLeaf, Children;
    LeafFacts(f, x, o);
    RemoveFromSet(Children(f, o), x);
  }

  lemma LeafRanked(f: Forest, rank: map<Id, nat>, x: Id)
    requires IsForest(f, rank) && x in f.blocks && f.blocks[x].subBlockIds == []
    ensures Ranked(WithoutLeaf(f, x), rank)
  {
    assert BlockRanked(f, rank, x) && ListIsChildren(f, BlockRef(x)) && Children(f, BlockRef(x)) == [];
    hide ListsAreChildren, NoDups, WithoutLeaf, Children;
    LeafFacts(f, x, NoRef);
    var f' := WithoutLeaf(f, x);
    forall b | b in f'.blocks
      ensures BlockRanked(f', rank, b)
    {
      assert BlockRanked(f, rank, b);
      assert b !in Children(f, BlockRef(x));
    }
  }

  /** The forest with a new block at the end of its parent's list. */
  function WithBlock(f: Forest, parent: ORef, b: Id): Forest {
    var f' := f.(blocks := f.blocks[b := Block(parent, [])]);
    match parent
    case TabRef(t) =>
      if t in f.tabs then f'.(tabs := f.tabs[t := f.tabs[t].(blockIds := f.tabs[t].blockIds + [b])])
      else f'
    case BlockRef(p) =>
      if p in f'.blocks then f'.(blocks := f'.blocks[p := f'.blocks[p].(subBlockIds := f'.blocks[p].subBlockIds + [b])])
      else f'
    case NoRef => f'
  }

  lemma {:induction false} NewBlockKeepsForest(f: Forest, rank: map<Id, nat>, parent: ORef, b: Id)
    requires IsForest(f, rank) && b !in f.blocks
    requires Exists(f, parent)
    ensures IsForest(WithBlock(f, parent, b), rank[b := NewRank(f, rank, parent)])
  {
    hide Ranked, ListIsChildren, WithBlock;
    var f' := WithBlock(f, parent, b);
    forall o: ORef
      ensures ListIsChildren(f', o)
    {
      NewBlockList(f, rank, parent, b, o);
    }
    NewBlockRanked(f, rank, parent, b);
  }

  lemma NewBlockFacts(f: Forest, parent: ORef, b: Id, o: ORef)
    requires b !in f.blocks
    requires Exists(f, parent)
    ensures var f' := WithBlock(f, parent, b);
            && f'.tabs.Keys == f.tabs.Keys && (forall c :: c in f'.blocks <==> c in f.blocks || c == b)
            && (forall c :: c in f'.blocks ==> f'.blocks[c].parent == if c == b then parent else f.blocks[c].parent)
            && Children(f', o) == if o == parent then Children(f, o) + [b] else Children(f, o)
  {
  }

  lemma NewBlockList(f: Forest, rank: map<Id, nat>, parent: ORef, b: Id, o: ORef)
    requires IsForest(f, rank) && b !in f.blocks
    requires Exists(f, parent)
    ensures ListIsChildren(WithBlock(f, parent, b), o)
  {
    assert ListIsChildren(f, o);
    hide Ranked, ListsAreChildren, WithBlock, Children, NoDups, Exists;
    NewBlockFacts(f, parent, b, o);
    var f' := WithBlock(f, parent, b);
    NewInList(Children(f, o), Children(f', o), f.blocks, f'.blocks, o, parent, b);
  }

  lemma NewInList(s: seq<Id>, s': seq<Id>, blocks: map<Id, Block>, blocks': map<Id, Block>, o: ORef, parent: ORef,
                  b: Id)
    requires b !in blocks && NoDups(s) && forall c :: c in s <==> c in blocks && blocks[c].parent == o
    requires forall c :: c in blocks' <==> c in blocks || c == b
    requires forall c :: c in blocks' ==> blocks'[c].parent == if c == b then parent else blocks[c].parent
    requires s' == if o == parent then s + [b] else s
    ensures NoDups(s') && forall c :: c in s' <==> c in blocks' && blocks'[c].parent == o
  {
    hide NoDups;
    if o == parent {
      AppendToSet(s, b);
    }
  }

  lemma NewBlockRanked(f: Forest, rank: map<Id, nat>, parent: ORef, b: Id)
    requires IsForest(f, rank) && b !in f.blocks
    requires Exists(f, parent)
    ensures Ranked(WithBlock(f, parent, b), rank[b := NewRank(f, rank, parent)])
  {
    hide ListsAreChildren, WithBlock, Children;
    NewBlockFacts(f, parent, b, NoRef);
    var f', rank' := WithBlock(f, parent, b), rank[b := NewRank(f, rank, parent)];
    forall c | c in f'.blocks
      ensures BlockRanked(f', rank', c)
    {
      if c == b {
        assert parent.BlockRef? ==> BlockRanked(f, rank, parent.id);
      } else {
        assert BlockRanked(f, rank, c);
      }
    }
  }

  ghost function NewRank(f: Forest, rank: map<Id, nat>, parent: ORef): nat {
    if parent.BlockRef? && parent.id in rank then rank[parent.id] + 1 else 0
  }
}
