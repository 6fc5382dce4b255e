/** Workspaces, tabs and blocks in the object store (pkg/score/block.go, pkg/score/workspace.go, without the closing
    of empty tabs and windows). */
module Score {
  import opened Basics
  import opened Slices
  import opened ScoreForest

  datatype Workspace = Workspace(tabIds: seq<Id>, pinnedTabIds: seq<Id>, activeTabId: Id)

  datatype Error = NotFound | HasSubBlocks | NotInWorkspace

  datatype Result = Ok | Err(error: Error)

  /** utilfn.FindStringInSlice */
  function Find(s: seq<Id>, x: Id): (i: int)
    ensures -1 <= i < |s|
    ensures if i >= 0 then s[i] == x && x !in s[..i] else x !in s
  {
    if s == [] then -1
    else if s[0] == x then 0
    else
      var i := Find(s[1..], x);
      if i < 0 then -1
      else
        assert s[..i + 1] == [s[0]] + s[1..][..i];
        i + 1
  }

  function AllTabs(ws: Workspace): seq<Id> {
    ws.tabIds + ws.pinnedTabIds
  }

  /** Every workspace lists, once each, the tabs that are at home in it. */
  ghost predicate TabsAtHome(workspaces: map<Id, Workspace>, home: map<Id, Id>) {
    && (forall w :: w in workspaces ==> TabsOf(workspaces, home, w))
    && (forall t :: t in home ==> home[t] in workspaces)
  }

  ghost predicate TabsOf(workspaces: map<Id, Workspace>, home: map<Id, Id>, w: Id)
    requires w in workspaces
  {
    && NoDups(AllTabs(workspaces[w]))
    && forall t :: t in AllTabs(workspaces[w]) <==> t in home && home[t] == w
  }

  /** Every tab has its own layout state, and no layout state is left over. */
  ghost predicate LayoutsOfTabs(tabs: map<Id, Tab>, layouts: set<Id>) {
    && (forall t :: t in tabs ==> tabs[t].layoutState in layouts)
    && (forall t, u :: t in tabs && u in tabs && tabs[t].layoutState == tabs[u].layoutState ==> t == u)
    && (forall l :: l in layouts ==> exists t :: t in tabs && tabs[t].layoutState == l)
  }

  /** The workspace without a tab, and with another active tab if it was the active one. */
  function WithoutTab(ws: Workspace, t: Id): Workspace {
    var i := Find(ws.tabIds, t);
    var ws' := if i >= 0 then ws.(tabIds := Remove(ws.tabIds, t)) else ws.(pinnedTabIds := Remove(ws.pinnedTabIds, t));
    if ws.activeTabId != t then ws'
    else if |ws'.tabIds| > 0 && i >= 0 then ws'.(activeTabId := ws'.tabIds[Max(0, Min(i - 1, |ws'.tabIds| - 1))])
    else if |ws'.pinnedTabIds| > 0 then ws'.(activeTabId := ws'.pinnedTabIds[0])
    else ws'.(activeTabId := "")
  }

  /** Pinning moves a tab to the end of the pinned ones, unpinning to the front of the others. */
  function Repinned(ws: Workspace, t: Id, pinned: bool): Workspace {
    if pinned && t !in ws.pinnedTabIds then ws.(tabIds := Remove(ws.tabIds, t), pinnedTabIds := ws.pinnedTabIds + [t])
    else if !pinned && t in ws.pinnedTabIds then
      ws.(tabIds := [t] + ws.tabIds, pinnedTabIds := Remove(ws.pinnedTabIds, t))
    else ws
  }

  class Store {
    var workspaces: map<Id, Workspace>
    var tabs: map<Id, Tab>
    var blocks: map<Id, Block>
    var layouts: set<Id>
    ghost var rank: map<Id, nat>  // blocks have larger ranks than their parents
    ghost var home: map<Id, Id>   // the workspace of each tab

    constructor ()
      ensures Valid() && workspaces == map[] && F() == Forest(map[], map[]) && layouts == {}
    {
      workspaces, tabs, blocks, layouts := map[], map[], map[], {};
      rank, home := map[], map[];
      new;
      assert forall o: ORef :: ListIsChildren(F(), o);
    }

    /** All ids in use */
    ghost function Ids(): set<Id>
      reads this
    {
      workspaces.Keys + tabs.Keys + blocks.Keys + layouts
    }

    ghost function F(): Forest
      reads this
    {
      Forest(tabs, blocks)
    }

    /** Blocks form a forest whose roots are listed by tabs, and tabs are listed by workspaces. */
    ghost predicate Valid()
      reads this
    {
      && IsForest(F(), rank)
      && TabsAtHome(workspaces, home) && home.Keys == tabs.Keys
      && LayoutsOfTabs(tabs, layouts)
    }

    /** The insertion in CreateWorkspace; newId is the fresh id. */
    method InsertWorkspace(newId: Id)
      requires Valid() && newId !in workspaces
      modifies `workspaces
      ensures Valid() && workspaces == old(workspaces)[newId := Workspace([], [], "")]
    {
      hide IsForest, LayoutsOfTabs, TabsAtHome;
      NewWorkspaceAtHome(workspaces, home, newId);
      workspaces := workspaces[newId := Workspace([], [], "")];
    }

    /** SetActiveTab, which takes any tab there is */
    method SetActiveTab(workspaceId: Id, tabId: Id) returns (r: Result)
      requires Valid()
      modifies `workspaces
      ensures Valid()
      ensures tabId == "" || workspaceId == "" ==> r == Ok && unchanged(this)
      ensures tabId != "" && workspaceId != "" && (workspaceId !in old(workspaces) || tabId !in tabs) ==>
        r == Err(NotFound) && unchanged(this)
      ensures tabId != "" && workspaceId in old(workspaces) && workspaceId != "" && tabId in tabs ==>
        && r == Ok
        && workspaces == old(workspaces)[workspaceId := old(workspaces[workspaceId]).(activeTabId := tabId)]
    {
      hide IsForest, LayoutsOfTabs, TabsAtHome;
      if tabId != "" && workspaceId != "" {
        if workspaceId !in workspaces {
          return Err(NotFound);
        }
        if tabId !in tabs {
          return Err(NotFound);
        }
        ActivatingKeepsHome(workspaces, home, workspaceId, tabId);
        workspaces := workspaces[workspaceId := workspaces[workspaceId].(activeTabId := tabId)];
      }
      return Ok;
    }

    /** createBlockObj; newId is the fresh id. */
    method CreateBlockObj(tabId: Id, newId: Id) returns (r: Result)
      requires Valid() && newId !in blocks
      modifies this
      ensures Valid() && unchanged(`workspaces, `home, `layouts)
      ensures tabId !in old(tabs) ==> r == Err(NotFound) && unchanged(this)
      ensures tabId in old(tabs) ==> r == Ok && F() == WithBlock(old(F()), TabRef(tabId), newId)
    {
      hide IsForest, LayoutsOfTabs, TabsAtHome;
      if tabId !in tabs {
        return Err(NotFound);
      }
      ghost var f := F();
      NewBlockKeepsForest(f, rank, TabRef(tabId), newId);
      LayoutsKept(tabs, tabId, tabs[tabId].blockIds + [newId], layouts);
      rank := rank[newId := NewRank(f, rank, TabRef(tabId))];
      blocks := blocks[newId := Block(TabRef(tabId), [])];
      tabs := tabs[tabId := tabs[tabId].(blockIds := tabs[tabId].blockIds + [newId])];
      return Ok;
    }

    /** createSubBlockObj */
    method CreateSubBlockObj(parentBlockId: Id, newId: Id) returns (r: Result)
      requires Valid() && newId !in blocks
      modifies this
      ensures Valid() && unchanged(`workspaces, `home, `layouts)
      ensures parentBlockId !in old(blocks) ==> r == Err(NotFound) && unchanged(this)
      ensures parentBlockId in old(blocks) ==> r == Ok && F() == WithBlock(old(F()), BlockRef(parentBlockId), newId)
    {
      hide IsForest, LayoutsOfTabs, TabsAtHome;
      if parentBlockId !in blocks {
        return Err(NotFound);
      }
      ghost var f := F();
      var parentBlock := blocks[parentBlockId];
      NewBlockKeepsForest(f, rank, BlockRef(parentBlockId), newId);
      rank := rank[newId := NewRank(f, rank, BlockRef(parentBlockId))];
      blocks := blocks[newId := Block(BlockRef(parentBlockId), [])];
      blocks := blocks[parentBlockId := parentBlock.(subBlockIds := parentBlock.subBlockIds + [newId])];
      return Ok;
    }

    /** deleteBlockObj; count is the number of blocks the parent has left. */
    method DeleteBlockObj(blockId: Id) returns (r: Result, count: int)
      requires Valid()
      modifies `tabs, `blocks
      ensures Valid()
      ensures blockId !in old(blocks) ==> r == Err(NotFound) && F() == old(F())
      ensures blockId in old(blocks) && old(blocks[blockId]).subBlockIds != [] ==>
        r == Err(HasSubBlocks) && F() == old(F())
      ensures blockId in old(blocks) && old(blocks[blockId]).subBlockIds == [] ==>
                r == Ok && F() == WithoutLeaf(old(F()), blockId) &&
                  count == |Children(F(), old(blocks[blockId]).parent)|
    {
      hide IsForest, LayoutsOfTabs, TabsAtHome;
      if blockId !in blocks {
        return Err(NotFound), -1;
      }
      var block := blocks[blockId];
      if |block.subBlockIds| > 0 {
        return Err(HasSubBlocks), -1;
      }
      count := -1;
      LeafKeepsForest(F(), rank, blockId);
      ParentExists(F(), rank, blockId);
      match block.parent {
        case TabRef(t) =>
          if t in tabs {
            var tab := tabs[t].(blockIds := Remove(tabs[t].blockIds, blockId));
            LayoutsKept(tabs, t, tab.blockIds, layouts);
            tabs := tabs[t := tab];
            count := |tab.blockIds|;
          }
        case BlockRef(p) =>
          if p in blocks {
            var parentBlock := blocks[p].(subBlockIds := Remove(blocks[p].subBlockIds, blockId));
            blocks := blocks[p := parentBlock];
            count := |parentBlock.subBlockIds|;
          }
        case NoRef =>
      }
      blocks := blocks - {blockId};
      return Ok, count;
    }

    /** The blocks that deleting a block may still have to visit. */
    ghost function Deeper(blockId: Id): set<Id>
      reads this
    {
      set b | b in blocks && b in rank && blockId in rank && rank[blockId] <= rank[b]
    }

    /** DeleteBlock, which ends because children rank deeper; it deletes exactly the block and all below it. */
    method DeleteBlock(blockId: Id) returns (r: Result)
      requires Valid()
      modifies `tabs, `blocks
      ensures Valid()
      ensures blockId !in old(blocks) ==> r == Err(NotFound) && F() == old(F())
      ensures blockId in old(blocks) ==> r == Ok && Pruned(old(F()), rank, blockId, F())
      decreases Deeper(blockId)
    {
      hide ListsAreChildren, Ranked, LayoutsOfTabs, TabsAtHome, PrunedFirst, Pruned, OwnerStays, WithoutLeaf;
      if blockId !in blocks {
        return Err(NotFound);
      }
      var block := blocks[blockId];
      ghost var f := F();
      ghost var all := Deeper(blockId);
      BlockStays(f, rank, blockId);
      PrunedNone(f, rank, BlockRef(blockId));
      assert Children(f, BlockRef(blockId)) == block.subBlockIds;
      hide Children;
      for i := 0 to |block.subBlockIds|
        invariant Valid() && PrunedFirst(f, rank, BlockRef(blockId), i, F())
        invariant blocks.Keys <= f.blocks.Keys
      {
        PruneNext(f, rank, BlockRef(blockId), i, F(), F());
        ChildDeeper(f, F(), rank, blockId, i);
        ghost var part := F();
        assert blockId in all && blockId !in Deeper(block.subBlockIds[i]) && Deeper(block.subBlockIds[i]) <= all;
        r := DeleteBlock(block.subBlockIds[i]);
        PruneNext(f, rank, BlockRef(blockId), i, part, F());
        PrunedShrinks(part, rank, block.subBlockIds[i], F());
      }
      LeafLast(f, rank, blockId, F());
      var count;
      r, count := DeleteBlockObj(blockId);
    }

    /** DeleteTab (not recursive): the tab is gone with its layout state and exactly its blocks. */
    method DeleteTab(workspaceId: Id, tabId: Id) returns (r: Result)
      requires Valid()
      modifies this
      ensures Valid()
      ensures workspaceId !in old(workspaces) ==> r == Err(NotFound) && unchanged(this)
      ensures workspaceId in old(workspaces) && tabId !in AllTabs(old(workspaces[workspaceId])) ==>
                r == Err(NotInWorkspace) && unchanged(this)
      ensures workspaceId in old(workspaces) && tabId in AllTabs(old(workspaces[workspaceId])) ==>
                && r == Ok && tabId in old(tabs)
                && workspaces == old(workspaces)[workspaceId := WithoutTab(old(workspaces[workspaceId]), tabId)]
                && tabs == old(tabs) - {tabId} && layouts == old(layouts) - {old(tabs[tabId]).layoutState}
                && blocks == OutsideTab(old(F()), old(rank), tabId)
    {
      hide IsForest, LayoutsOfTabs, TabsAtHome, TabsOf, WithoutTab, OutsideTab;
      if workspaceId !in workspaces {
        return Err(NotFound);
      }
      var ws := workspaces[workspaceId];
      var tabIdx, tabIdxPinned := Find(ws.tabIds, tabId), Find(ws.pinnedTabIds, tabId);
      if tabIdx == -1 && tabIdxPinned == -1 {
        return Err(NotInWorkspace);
      }
      ws := CutTab(ws, tabId, tabIdx, tabIdxPinned);
      DropTab(workspaceId, tabId, ws);
      return Ok;
    }

    /** The rest of DeleteTab, for a tab that the workspace lists */
    method DropTab(workspaceId: Id, tabId: Id, ws: Workspace)
      requires Valid() && workspaceId in workspaces && tabId in AllTabs(workspaces[workspaceId])
      requires ws == WithoutTab(workspaces[workspaceId], tabId)
      modifies this
      ensures Valid() && tabId in old(tabs)
      ensures workspaces == old(workspaces)[workspaceId := ws]
      ensures tabs == old(tabs) - {tabId} && layouts == old(layouts) - {old(tabs[tabId]).layoutState}
      ensures blocks == OutsideTab(old(F()), old(rank), tabId)
    {
      hide IsForest, LayoutsOfTabs, TabsAtHome, TabsOf, PrunedFirst, Pruned, WithoutTab, OutsideTab;
      ListedTabExists(workspaces, home, workspaceId, tabId);
      var tab := tabs[tabId];
      DeleteBlocksOf(tabId, tab.blockIds);
      TabLeavesHome(workspaces, home, workspaceId, tabId);
      TabLeavesForest(F(), rank, tabId);
      TabLeavesLayouts(tabs, tabId, layouts);
      workspaces := workspaces[workspaceId := ws];
      tabs := tabs - {tabId};
      layouts := layouts - {tab.layoutState};
      home := home - {tabId};
    }

    /** How DeleteTab takes a tab off its workspace and chooses the active one among the others */
    static method CutTab(before: Workspace, tabId: Id, tabIdx: int, tabIdxPinned: int) returns (ws: Workspace)
      requires tabIdx == Find(before.tabIds, tabId) && tabIdxPinned == Find(before.pinnedTabIds, tabId)
      requires tabIdx != -1 || tabIdxPinned != -1
      ensures ws == WithoutTab(before, tabId)
    {
      ws := before;
      if tabIdx != -1 {
        CutIsRemove(ws.tabIds, tabIdx);
        ws := ws.(tabIds := ws.tabIds[..tabIdx] + ws.tabIds[tabIdx + 1..]);
      } else {
        CutIsRemove(ws.pinnedTabIds, tabIdxPinned);
        ws := ws.(pinnedTabIds := ws.pinnedTabIds[..tabIdxPinned] + ws.pinnedTabIds[tabIdxPinned + 1..]);
      }
      if ws.activeTabId == tabId {
        if |ws.tabIds| > 0 && tabIdx != -1 {
          ws := ws.(activeTabId := ws.tabIds[Max(0, Min(tabIdx - 1, |ws.tabIds| - 1))]);
        } else if |ws.pinnedTabIds| > 0 {
          ws := ws.(activeTabId := ws.pinnedTabIds[0]);
        } else {
          ws := ws.(activeTabId := "");
        }
      }
    }

    /** The loop of DeleteTab over the blocks of the tab */
    method DeleteBlocksOf(tabId: Id, blockIds: seq<Id>)
      requires Valid() && tabId in tabs && blockIds == tabs[tabId].blockIds
      modifies `tabs, `blocks
      ensures Valid() && blocks == OutsideTab(old(F()), rank, tabId)
      ensures tabs == old(tabs)[tabId := old(tabs[tabId]).(blockIds := [])]
    {
      hide ListsAreChildren, Ranked, LayoutsOfTabs, TabsAtHome, PrunedFirst, Pruned, OutsideTab;
      ghost var f := F();
      PrunedNone(f, rank, TabRef(tabId));
      assert Children(f, TabRef(tabId)) == blockIds;
      hide Children;
      for i := 0 to |blockIds|
        invariant Valid() && PrunedFirst(f, rank, TabRef(tabId), i, F())
      {
        PruneNext(f, rank, TabRef(tabId), i, F(), F());
        ghost var part := F();
        var r := DeleteBlock(blockIds[i]);
        PruneNext(f, rank, TabRef(tabId), i, part, F());
      }
      AllPruned(f, rank, tabId, F());
    }

    /** createTabObj; the new ids are fresh. */
    method CreateTabObj(workspaceId: Id, newId: Id, newLayoutId: Id, pinned: bool) returns (r: Result)
      requires Valid() && newId !in tabs && newLayoutId !in layouts
      modifies this
      ensures Valid()
      ensures workspaceId !in old(workspaces) ==> r == Err(NotFound) && unchanged(this)
      ensures workspaceId in old(workspaces) ==>
                && r == Ok && tabs == old(tabs)[newId := Tab([], newLayoutId)] &&
                    layouts == old(layouts) + {newLayoutId}
                && blocks == old(blocks)
                && workspaces == old(workspaces)[workspaceId := WithTab(old(workspaces[workspaceId]), newId, pinned)]
    {
      hide IsForest, LayoutsOfTabs, TabsAtHome;
      if workspaceId !in workspaces {
        return Err(NotFound);
      }
      var ws := workspaces[workspaceId];
      if pinned {
        ws := ws.(pinnedTabIds := ws.pinnedTabIds + [newId]);
      } else {
        ws := ws.(tabIds := ws.tabIds + [newId]);
      }
      NewTabAtHome(workspaces, home, workspaceId, newId, pinned);
      NewTabForest(F(), rank, newId, newLayoutId);
      NewTabLayouts(tabs, newId, newLayoutId, layouts);
      tabs := tabs[newId := Tab([], newLayoutId)];
      layouts := layouts + {newLayoutId};
      workspaces := workspaces[workspaceId := ws];
      home := home[newId := workspaceId];
      return Ok;
    }

    /** ChangeTabPinning */
    method ChangeTabPinning(workspaceId: Id, tabId: Id, pinned: bool) returns (r: Result)
      requires Valid()
      modifies `workspaces
      ensures Valid()
      ensures tabId == "" || workspaceId == "" ==> r == Ok && unchanged(this)
      ensures tabId != "" && workspaceId != "" && workspaceId !in old(workspaces) ==>
        r == Err(NotFound) && unchanged(this)
      ensures tabId != "" && workspaceId != "" && workspaceId in old(workspaces) ==>
                if pinned && tabId !in AllTabs(old(workspaces[workspaceId])) then
                  r == Err(NotInWorkspace) && unchanged(this)
                else
                  && r == Ok
                  && workspaces == old(workspaces)[workspaceId := Repinned(old(workspaces[workspaceId]), tabId, pinned)]
    {
      hide IsForest, LayoutsOfTabs, TabsAtHome;
      if tabId != "" && workspaceId != "" {
        if workspaceId !in workspaces {
          return Err(NotFound);
        }
        var workspace := workspaces[workspaceId];
        if pinned && Find(workspace.pinnedTabIds, tabId) == -1 {
          if Find(workspace.tabIds, tabId) == -1 {
            return Err(NotInWorkspace);
          }
          workspace :=
            workspace.(tabIds := Remove(workspace.tabIds, tabId), pinnedTabIds := workspace.pinnedTabIds + [tabId]);
        } else if !pinned && Find(workspace.pinnedTabIds, tabId) != -1 {
          workspace :=
            workspace.(pinnedTabIds := Remove(workspace.pinnedTabIds, tabId), tabIds := [tabId] + workspace.tabIds);
        }
        PinningKeepsHome(workspaces, home, workspaceId, tabId, pinned);
        workspaces := workspaces[workspaceId := workspace];
      }
      return Ok;
    }
  }

  function WithTab(ws: Workspace, t: Id, pinned: bool): Workspace {
    if pinned then ws.(pinnedTabIds := ws.pinnedTabIds + [t]) else ws.(tabIds := ws.tabIds + [t])
  }

  /** Where the tabs of a workspace are listed: a new one at the end of the list asked for; a pinned one at the end of
      the pinned ones, and an unpinned one at the front of the others; all others stay in their order. */
  lemma {:induction false} TabsListedWhere(ws: Workspace, t: Id, i: nat)
    ensures WithTab(ws, t, true) == Workspace(ws.tabIds, ws.pinnedTabIds + [t], ws.activeTabId)
    ensures WithTab(ws, t, false) == Workspace(ws.tabIds + [t], ws.pinnedTabIds, ws.activeTabId)
    ensures NoDups(AllTabs(ws)) && i < |ws.tabIds| && ws.tabIds[i] == t ==>
      Repinned(ws, t, true) ==
        Workspace(ws.tabIds[..i] + ws.tabIds[i + 1..], ws.pinnedTabIds + [t], ws.activeTabId)
    ensures NoDups(AllTabs(ws)) && i < |ws.pinnedTabIds| && ws.pinnedTabIds[i] == t ==>
      Repinned(ws, t, false) ==
        Workspace([t] + ws.tabIds, ws.pinnedTabIds[..i] + ws.pinnedTabIds[i + 1..], ws.activeTabId)
    ensures t in ws.pinnedTabIds ==> Repinned(ws, t, true) == ws
    ensures t !in ws.pinnedTabIds ==> Repinned(ws, t, false) == ws
  {
    if NoDups(AllTabs(ws)) {
      if i < |ws.tabIds| && ws.tabIds[i] == t {
        assert AllTabs(ws)[i] == t && forall j :: 0 <= j < |ws.pinnedTabIds| ==>
          AllTabs(ws)[|ws.tabIds| + j] == ws.pinnedTabIds[j];
        assert forall j :: 0 <= j < i ==> AllTabs(ws)[j] == ws.tabIds[j];
        CutIsRemove(ws.tabIds, i);
      }
      if i < |ws.pinnedTabIds| && ws.pinnedTabIds[i] == t {
        assert forall j :: 0 <= j < |ws.pinnedTabIds| ==> AllTabs(ws)[|ws.tabIds| + j] == ws.pinnedTabIds[j];
        CutIsRemove(ws.pinnedTabIds, i);
      }
    }
  }

  /** Deleting the i-th tab of a workspace: the lists close up; if it was active the tab before it becomes active, or
      the next one, or the first pinned one, or none; deleting a pinned one activates the first pinned one, or none. */
  lemma {:induction false} TabDeletedWhere(ws: Workspace, t: Id, i: nat)
    requires NoDups(AllTabs(ws))
    ensures i < |ws.tabIds| && ws.tabIds[i] == t ==>
      var rest := ws.tabIds[..i] + ws.tabIds[i + 1..];
      WithoutTab(ws, t) == Workspace(rest, ws.pinnedTabIds,
        if ws.activeTabId != t then ws.activeTabId
        else if i > 0 then ws.tabIds[i - 1]
        else if |ws.tabIds| > 1 then ws.tabIds[1]
        else if |ws.pinnedTabIds| > 0 then ws.pinnedTabIds[0]
        else "")
    ensures i < |ws.pinnedTabIds| && ws.pinnedTabIds[i] == t ==>
      var rest := ws.pinnedTabIds[..i] + ws.pinnedTabIds[i + 1..];
      WithoutTab(ws, t) == Workspace(ws.tabIds, rest,
        if ws.activeTabId != t then ws.activeTabId
        else if |rest| > 0 then rest[0]
        else "")
  {
    assert forall j :: 0 <= j < |ws.tabIds| ==> AllTabs(ws)[j] == ws.tabIds[j];
    assert forall j :: 0 <= j < |ws.pinnedTabIds| ==> AllTabs(ws)[|ws.tabIds| + j] == ws.pinnedTabIds[j];
    if i < |ws.tabIds| && ws.tabIds[i] == t {
      CutIsRemove(ws.tabIds, i);
    }
    if i < |ws.pinnedTabIds| && ws.pinnedTabIds[i] == t {
      CutIsRemove(ws.pinnedTabIds, i);
    }
  }

  /** The blocks that do not belong to a tab. */
  ghost function OutsideTab(f: Forest, rank: map<Id, nat>, t: Id): map<Id, Block>
    requires Ranked(f, rank)
  {
    map b | b in f.blocks && TabOf(f, rank, b) != t :: f.blocks[b]
  }

  // ---------------------------------------------------------------- blocks

  lemma ParentExists(f: Forest, rank: map<Id, nat>, b: Id)
    requires IsForest(f, rank) && b in f.blocks
    ensures Exists(f, f.blocks[b].parent) && f.blocks[b].parent != BlockRef(b)
  {
    assert BlockRanked(f, rank, b);
  }

  lemma ChildDeeper(f: Forest, part: Forest, rank: map<Id, nat>, x: Id, i: nat)
    requires IsForest(f, rank) && x in f.blocks && i < |f.blocks[x].subBlockIds| && part.blocks.Keys <= f.blocks.Keys
    ensures x in f.blocks && x in rank
    ensures f.blocks[x].subBlockIds[i] in rank && rank[x] < rank[f.blocks[x].subBlockIds[i]]
  {
    var c := f.blocks[x].subBlockIds[i];
    assert ListIsChildren(f, BlockRef(x)) && c in Children(f, BlockRef(x));
    assert BlockRanked(f, rank, c) && BlockRanked(f, rank, x);
  }

  lemma PrunedShrinks(f: Forest, rank: map<Id, nat>, x: Id, f': Forest)
    requires IsForest(f, rank) && x in f.blocks && Pruned(f, rank, x, f')
    ensures f'.blocks.Keys <= f.blocks.Keys
  {
  }

  lemma AllPruned(f: Forest, rank: map<Id, nat>, t: Id, f': Forest)
    requires IsForest(f, rank) && t in f.tabs && PrunedFirst(f, rank, TabRef(t), |f.tabs[t].blockIds|, f')
    ensures f'.blocks == OutsideTab(f, rank, t)
    ensures f'.tabs == f.tabs[t := f.tabs[t].(blockIds := [])]
  {
    var kids := f.tabs[t].blockIds;
    forall b | b in f.blocks
      ensures TabOf(f, rank, b) == t <==> b in BelowFirst(f, rank, kids, |kids|)
    {
      InTabViaChild(f, rank, b, t);
      if j: nat :| ViaChild(f, rank, b, kids, j) {
        assert j < |kids|;
      }
    }
  }

  // ---------------------------------------------------------------- workspaces and tabs

  lemma NewWorkspaceAtHome(workspaces: map<Id, Workspace>, home: map<Id, Id>, w: Id)
    requires TabsAtHome(workspaces, home) && w !in workspaces
    ensures TabsAtHome(workspaces[w := Workspace([], [], "")], home)
  {
    var workspaces' := workspaces[w := Workspace([], [], "")];
    forall v | v in workspaces'
      ensures TabsOf(workspaces', home, v)
    {
      if v != w {
        assert TabsOf(workspaces, home, v);
      }
    }
  }

  lemma ActivatingKeepsHome(workspaces: map<Id, Workspace>, home: map<Id, Id>, w: Id, t: Id)
    requires TabsAtHome(workspaces, home) && w in workspaces
    ensures TabsAtHome(workspaces[w := workspaces[w].(activeTabId := t)], home)
  {
    hide NoDups;
    var workspaces' := workspaces[w := workspaces[w].(activeTabId := t)];
    forall v | v in workspaces'
      ensures TabsOf(workspaces', home, v)
    {
      assert TabsOf(workspaces, home, v);
    }
  }

  lemma LayoutsKept(tabs: map<Id, Tab>, t: Id, blockIds: seq<Id>, layouts: set<Id>)
    requires LayoutsOfTabs(tabs, layouts) && t in tabs
    ensures LayoutsOfTabs(tabs[t := tabs[t].(blockIds := blockIds)], layouts)
  {
    var tabs' := tabs[t := tabs[t].(blockIds := blockIds)];
    forall l | l in layouts
      ensures exists u :: u in tabs' && tabs'[u].layoutState == l
    {
      var u :| u in tabs && tabs[u].layoutState == l;
      assert u in tabs' && tabs'[u].layoutState == l;
    }
  }

  lemma {:induction false} CutIsRemove(s: seq<Id>, i: nat)
    requires i < |s| && s[i] !in s[..i]
    ensures s[..i] + s[i + 1..] == Remove(s, s[i])
  {
    if i > 0 {
      assert s[0] in s[..i] && forall y :: y in s[1..][..i - 1] ==> y in s[..i];
      CutIsRemove(s[1..], i - 1);
      assert s[..i] + s[i + 1..] == [s[0]] + (s[1..][..i - 1] + s[1..][i..]);
    }
  }

  lemma ListedTabExists(workspaces: map<Id, Workspace>, home: map<Id, Id>, w: Id, t: Id)
    requires TabsAtHome(workspaces, home) && w in workspaces && t in AllTabs(workspaces[w])
    ensures t in home && home[t] == w
  {
    assert TabsOf(workspaces, home, w);
  }

  /** Deleting a tab from the workspace it is at home in. */
  lemma {:induction false} TabLeavesHome(workspaces: map<Id, Workspace>, home: map<Id, Id>, w: Id, t: Id)
    requires TabsAtHome(workspaces, home) && w in workspaces && t in home && home[t] == w
    ensures TabsAtHome(workspaces[w := WithoutTab(workspaces[w], t)], home - {t})
  {
    hide NoDups, AllTabs, WithoutTab;
    var ws := workspaces[w];
    var workspaces' := workspaces[w := WithoutTab(ws, t)];
    assert TabsOf(workspaces, home, w);
    WithoutTabLists(ws, t);
    forall v | v in workspaces'
      ensures TabsOf(workspaces', home - {t}, v)
    {
      assert TabsOf(workspaces, home, v);
    }
  }

  lemma WithoutTabLists(ws: Workspace, t: Id)
    requires NoDups(AllTabs(ws)) && t in AllTabs(ws)
    ensures NoDups(AllTabs(WithoutTab(ws, t)))
    ensures forall u :: u in AllTabs(WithoutTab(ws, t)) <==> u in AllTabs(ws) && u != t
  {
    SplitNoDups(ws.tabIds, ws.pinnedTabIds);
    RemoveFromSet(ws.tabIds, t);
    RemoveFromSet(ws.pinnedTabIds, t);
    var ws' := WithoutTab(ws, t);
    assert t in ws.tabIds || t in ws.pinnedTabIds;
    SplitNoDups(ws'.tabIds, ws'.pinnedTabIds);
  }

  lemma SplitNoDups(a: seq<Id>, b: seq<Id>)
    ensures NoDups(a + b) <==> NoDups(a) && NoDups(b) && forall x :: x in a ==> x !in b
  {
    if NoDups(a + b) {
      forall i, j | 0 <= i < j < |a|
        ensures a[i] != a[j]
      {
        assert (a + b)[i] != (a + b)[j];
      }
      forall i, j | 0 <= i < j < |b|
        ensures b[i] != b[j]
      {
        assert (a + b)[|a| + i] != (a + b)[|a| + j];
      }
      forall x | x in a
        ensures x !in b
      {
        var i :| 0 <= i < |a| && a[i] == x;
        forall j | 0 <= j < |b|
          ensures b[j] != x
        {
          assert (a + b)[i] != (a + b)[|a| + j];
        }
      }
    } else {
      var i, j :| 0 <= i < j < |a + b| && (a + b)[i] == (a + b)[j];
      if i < |a| <= j {
        assert a[i] in a && b[j - |a|] in b;
      }
    }
  }

  lemma {:induction false} TabLeavesForest(f: Forest, rank: map<Id, nat>, t: Id)
    requires IsForest(f, rank) && t in f.tabs && f.tabs[t].blockIds == []
    ensures IsForest(f.(tabs := f.tabs - {t}), rank)
  {
    var f' := f.(tabs := f.tabs - {t});
    assert ListIsChildren(f, TabRef(t)) && Children(f, TabRef(t)) == [];
    forall o: ORef
      ensures ListIsChildren(f', o)
    {
      assert ListIsChildren(f, o) && Children(f', o) == Children(f, o);
    }
    forall b | b in f'.blocks
      ensures BlockRanked(f', rank, b)
    {
      assert BlockRanked(f, rank, b) && b !in Children(f, TabRef(t));
    }
  }

  lemma TabLeavesLayouts(tabs: map<Id, Tab>, t: Id, layouts: set<Id>)
    requires LayoutsOfTabs(tabs, layouts) && t in tabs
    ensures LayoutsOfTabs(tabs - {t}, layouts - {tabs[t].layoutState})
  {
    forall l | l in layouts - {tabs[t].layoutState}
      ensures exists u :: u in tabs - {t} && (tabs - {t})[u].layoutState == l
    {
      var u :| u in tabs && tabs[u].layoutState == l;
      assert u in tabs - {t} && (tabs - {t})[u].layoutState == l;
    }
  }

  lemma {:induction false} NewTabAtHome(workspaces: map<Id, Workspace>, home: map<Id, Id>, w: Id, t: Id, pinned: bool)
    requires TabsAtHome(workspaces, home) && w in workspaces && t !in home
    ensures TabsAtHome(workspaces[w := WithTab(workspaces[w], t, pinned)], home[t := w])
  {
    hide NoDups, AllTabs, WithTab;
    var ws := workspaces[w];
    var workspaces' := workspaces[w := WithTab(ws, t, pinned)];
    assert TabsOf(workspaces, home, w);
    WithTabLists(ws, t, pinned);
    forall v | v in workspaces'
      ensures TabsOf(workspaces', home[t := w], v)
    {
      assert TabsOf(workspaces, home, v);
    }
  }

  lemma WithTabLists(ws: Workspace, t: Id, pinned: bool)
    requires NoDups(AllTabs(ws)) && t !in AllTabs(ws)
    ensures NoDups(AllTabs(WithTab(ws, t, pinned)))
    ensures forall u :: u in AllTabs(WithTab(ws, t, pinned)) <==> u in AllTabs(ws) || u == t
  {
    hide NoDups;
    SplitNoDups(ws.tabIds, ws.pinnedTabIds);
    var ws' := WithTab(ws, t, pinned);
    AppendToSet(if pinned then ws.pinnedTabIds else ws.tabIds, t);
    SplitNoDups(ws'.tabIds, ws'.pinnedTabIds);
  }

  lemma {:induction false} NewTabForest(f: Forest, rank: map<Id, nat>, t: Id, layoutId: Id)
    requires IsForest(f, rank) && t !in f.tabs
    ensures IsForest(f.(tabs := f.tabs[t := Tab([], layoutId)]), rank)
  {
    var f' := f.(tabs := f.tabs[t := Tab([], layoutId)]);
    forall o: ORef
      ensures ListIsChildren(f', o)
    {
      assert ListIsChildren(f, o) && Children(f', o) == Children(f, o);
    }
    forall b | b in f'.blocks
      ensures BlockRanked(f', rank, b)
    {
      assert BlockRanked(f, rank, b);
    }
  }

  lemma NewTabLayouts(tabs: map<Id, Tab>, t: Id, layoutId: Id, layouts: set<Id>)
    requires LayoutsOfTabs(tabs, layouts) && t !in tabs && layoutId !in layouts
    ensures LayoutsOfTabs(tabs[t := Tab([], layoutId)], layouts + {layoutId})
  {
    var tabs' := tabs[t := Tab([], layoutId)];
    forall l | l in layouts + {layoutId}
      ensures exists u :: u in tabs' && tabs'[u].layoutState == l
    {
      if l == layoutId {
        assert t in tabs' && tabs'[t].layoutState == l;
      } else {
        var u :| u in tabs && tabs[u].layoutState == l;
        assert u in tabs' && tabs'[u].layoutState == l;
      }
    }
  }

  /** Pinning or unpinning changes the order and the kind of a workspace's tabs, but not which tabs it has. */
  lemma {:induction false} PinningKeepsHome(workspaces: map<Id, Workspace>, home: map<Id, Id>, w: Id, t: Id,
                                            pinned: bool)
    requires TabsAtHome(workspaces, home) && w in workspaces && (pinned ==> t in AllTabs(workspaces[w]))
    ensures TabsAtHome(workspaces[w := Repinned(workspaces[w], t, pinned)], home)
  {
    hide NoDups, AllTabs, Repinned;
    var ws := workspaces[w];
    var workspaces' := workspaces[w := Repinned(ws, t, pinned)];
    assert TabsOf(workspaces, home, w);
    RepinnedLists(ws, t, pinned);
    forall v | v in workspaces'
      ensures TabsOf(workspaces', home, v)
    {
      assert TabsOf(workspaces, home, v);
    }
  }

  lemma RepinnedLists(ws: Workspace, t: Id, pinned: bool)
    requires NoDups(AllTabs(ws)) && (pinned ==> t in AllTabs(ws))
    ensures NoDups(AllTabs(Repinned(ws, t, pinned)))
    ensures forall u :: u in AllTabs(Repinned(ws, t, pinned)) <==> u in AllTabs(ws)
  {
    hide NoDups;
    SplitNoDups(ws.tabIds, ws.pinnedTabIds);
    RemoveFromSet(ws.tabIds, t);
    RemoveFromSet(ws.pinnedTabIds, t);
    var ws' := Repinned(ws, t, pinned);
    if pinned && t !in ws.pinnedTabIds {
      AppendToSet(ws.pinnedTabIds, t);
    } else if !pinned && t in ws.pinnedTabIds {
      SingleNoDups(t);
      SplitNoDups([t], ws.tabIds);
    }
    SplitNoDups(ws'.tabIds, ws'.pinnedTabIds);
  }

  lemma SingleNoDups(t: Id)
    ensures NoDups([t])
  {
  }

  // ---------------------------------------------------------------- runs

  datatype Op =
    | InsertWorkspaceOp(newId: Id)
    | CreateTabOp(workspaceId: Id, newId: Id, newLayoutId: Id, pinned: bool)
    | SetActiveTabOp(workspaceId: Id, tabId: Id)
    | ChangeTabPinningOp(workspaceId: Id, tabId: Id, pinned: bool)
    | DeleteTabOp(workspaceId: Id, tabId: Id)
    | CreateBlockOp(tabId: Id, newId: Id)
    | CreateSubBlockOp(parentBlockId: Id, newId: Id)
    | DeleteBlockOp(blockId: Id)

  /** The ids that an operation makes up. */
  function NewIds(op: Op): set<Id> {
    match op
    case InsertWorkspaceOp(newId) => {newId}
    case CreateTabOp(_, newId, newLayoutId, _) => {newId, newLayoutId}
    case CreateBlockOp(_, newId) => {newId}
    case CreateSubBlockOp(_, newId) => {newId}
    case _ => {}
  }

  function IdsOfRun(ops: seq<Op>): set<Id> {
    if ops == [] then {} else IdsOfRun(ops[..|ops| - 1]) + NewIds(ops[|ops| - 1])
  }

  /** No id is made up twice. */
  predicate FreshIds(ops: seq<Op>) {
    forall n :: 0 <= n < |ops| ==> NewIds(ops[n]) !! IdsOfRun(ops[..n])
  }

  /** A block is listed at one place of one owner, and nowhere else. */
  ghost predicate ListedAt(f: Forest, b: Id, o: ORef, i: nat) {
    && i < |Children(f, o)| && Children(f, o)[i] == b
    && forall o', j :: 0 <= j < |Children(f, o')| && Children(f, o')[j] == b ==> o' == o && j == i
  }

  /** Every block is listed exactly once, by the parent it names, and following parents from it ends at a tab. */
  ghost predicate IsOwned(f: Forest, rank: map<Id, nat>, b: Id)
    requires Ranked(f, rank) && b in f.blocks
  {
    (exists i: nat :: ListedAt(f, b, f.blocks[b].parent, i)) && TabOf(f, rank, b) in f.tabs
  }

  lemma {:induction false} BlockIsOwned(f: Forest, rank: map<Id, nat>, b: Id)
    requires IsForest(f, rank) && b in f.blocks
    ensures IsOwned(f, rank, b)
  {
    var o := f.blocks[b].parent;
    NoCycleNoOrphan(f, rank, b);
    assert ListIsChildren(f, o) && b in Children(f, o);
    var i: nat :| i < |Children(f, o)| && Children(f, o)[i] == b;
    ListedOnce(f, rank, b, o, i);
    assert ListedAt(f, b, o, i);
  }

  /** After any run on a new store every block is owned, and every tab is listed once, by one workspace. */
  method RunOps(ops: seq<Op>) returns (s: Store)
    requires FreshIds(ops)
    ensures s.Valid() && forall b :: b in s.blocks ==> IsOwned(s.F(), s.rank, b)
    ensures forall t :: t in s.tabs <==> exists w :: w in s.workspaces && t in AllTabs(s.workspaces[w])
  {
    hide ListsAreChildren, Ranked, LayoutsOfTabs, TabsAtHome, WithBlock, Pruned, OutsideTab, IsOwned, FreshIds,
      IdsOfRun, NewIds;
    s := new Store();
    RunStart(ops);
    for n := 0 to |ops|
      invariant fresh(s) && s.Valid() && s.Ids() <= IdsOfRun(ops[..n])
    {
      RunStep(ops, n);
      RunOne(s, ops[n], IdsOfRun(ops[..n]));
    }
    forall b | b in s.blocks
      ensures IsOwned(s.F(), s.rank, b)
    {
      BlockIsOwned(s.F(), s.rank, b);
    }
    TabsListed(s.workspaces, s.home);
  }

  method RunOne(s: Store, op: Op, ghost ids: set<Id>)
    requires s.Valid() && s.Ids() <= ids && NewIds(op) !! ids
    modifies s
    ensures s.Valid() && s.Ids() <= ids + NewIds(op)
  {
    hide IsForest, LayoutsOfTabs, TabsAtHome, WithTab, Repinned, WithoutTab;
    match op
    case InsertWorkspaceOp(newId) =>
      s.InsertWorkspace(newId);
    case CreateTabOp(workspaceId, newId, newLayoutId, pinned) =>
      var _ := s.CreateTabObj(workspaceId, newId, newLayoutId, pinned);
    case SetActiveTabOp(workspaceId, tabId) =>
      var _ := s.SetActiveTab(workspaceId, tabId);
    case ChangeTabPinningOp(workspaceId, tabId, pinned) =>
      var _ := s.ChangeTabPinning(workspaceId, tabId, pinned);
    case DeleteTabOp(workspaceId, tabId) =>
      var _ := s.DeleteTab(workspaceId, tabId);
    case CreateBlockOp(tabId, newId) =>
      var _ := s.CreateBlockObj(tabId, newId);
    case CreateSubBlockOp(parentBlockId, newId) =>
      var _ := s.CreateSubBlockObj(parentBlockId, newId);
    case DeleteBlockOp(blockId) =>
      var _ := s.DeleteBlock(blockId);
  }

  lemma RunStart(ops: seq<Op>)
    ensures IdsOfRun(ops[..0]) == {}
  {
  }

  lemma RunStep(ops: seq<Op>, n: nat)
    requires FreshIds(ops) && n < |ops|
    ensures NewIds(ops[n]) !! IdsOfRun(ops[..n]) && IdsOfRun(ops[..n + 1]) == IdsOfRun(ops[..n]) + NewIds(ops[n])
  {
    assert ops[..n + 1][..n] == ops[..n];
  }

  lemma TabsListed(workspaces: map<Id, Workspace>, home: map<Id, Id>)
    requires TabsAtHome(workspaces, home)
    ensures forall t :: t in home <==> exists w :: w in workspaces && t in AllTabs(workspaces[w])
  {
    hide NoDups, AllTabs;
    forall t | t in home
      ensures exists w :: w in workspaces && t in AllTabs(workspaces[w])
    {
      assert TabsOf(workspaces, home, home[t]);
    }
    forall t, w | w in workspaces && t in AllTabs(workspaces[w])
      ensures t in home
    {
      assert TabsOf(workspaces, home, w);
    }
  }
}
