/** Splitting an update into chunks and merging it again (vdom_root.go: SplitBackendUpdate; vdom-utils.tsx:
    mergeBackendUpdates), and the whole way from rendering to what the frontend rebuilds. */
module VDomUpdates {
  import opened Basics
  import opened Wrappers
  import opened VDomTypes
  import opened VDomTree
  import opened VDomFrames
  import opened VDomExpand
  import opened VDomRoot
  import opened VDomTransfer

  const INITIAL_CHUNK_SIZE := 50
  const CHUNK_SIZE := 100

  /** What only the first chunk carries. A render update is given by the id of the element that is the new root. */
  datatype Core = Core(opts: Option<string>, hasWork: bool, renderUpdates: seq<StarId>, refOperations: seq<string>,
    messages: seq<string>)

  datatype StateSync = StateSync(atom: string, value: Val)

  datatype Update = Update(kind: string, ts: int, blockId: string, core: Core, transferElems: seq<TransferElem>,
    stateSync: seq<StateSync>)

  const EMPTY_CORE := Core(None, false, [], [], [])

  /** mergeBackendUpdates */
  function Merge(base: Update, next: Update): Update {
    if base.blockId != next.blockId || base.ts != next.ts then base
    else base.(transferElems := base.transferElems + next.transferElems, stateSync := base.stateSync + next.stateSync)
  }

  function MergeAll(us: seq<Update>): Update
    requires us != []
  {
    if |us| == 1 then us[0] else Merge(MergeAll(us[..|us| - 1]), us[|us| - 1])
  }

  lemma MergeOne(us: seq<Update>, next: Update)
    requires us != []
    ensures MergeAll(us + [next]) == Merge(MergeAll(us), next)
  {
    assert (us + [next])[..|us|] == us;
  }

  /** The chunks merge back to the update; the first holds up to 50 items of each array and the others up to 100
      items of one of them. */
  method SplitBackendUpdate(update: Update) returns (updates: seq<Update>)
    ensures updates != [] && MergeAll(updates) == update
    ensures |updates[0].transferElems| <= 50 && |updates[0].stateSync| <= 50 && updates[0].core == update.core
    ensures ChunksAfterFirst(updates) && SameHead(updates, update)
  {
    if |update.transferElems| <= INITIAL_CHUNK_SIZE && |update.stateSync| <= INITIAL_CHUNK_SIZE {
      return [update];
    }
    var t0 := Min(INITIAL_CHUNK_SIZE, |update.transferElems|);
    var s0 := Min(INITIAL_CHUNK_SIZE, |update.stateSync|);
    var firstUpdate := Update(update.kind, update.ts, update.blockId, update.core, [], []);
    if |update.transferElems| > 0 {
      firstUpdate := firstUpdate.(transferElems := update.transferElems[..t0]);
    }
    if |update.stateSync| > 0 {
      firstUpdate := firstUpdate.(stateSync := update.stateSync[..s0]);
    }
    updates := TransferChunks(update, firstUpdate);
    updates := StateChunks(update, firstUpdate, updates);
  }

  /** Every update but the first is a chunk of the right size. */
  predicate ChunksAfterFirst(updates: seq<Update>) {
    forall k :: 1 <= k < |updates| ==>
      updates[k].core == EMPTY_CORE && 0 < |updates[k].transferElems| + |updates[k].stateSync| <= 100
  }

  /** Every chunk says what kind of update it is, of which moment, and for which block. */
  predicate SameHead(updates: seq<Update>, update: Update) {
    forall k :: 0 <= k < |updates| ==>
      updates[k].kind == update.kind && updates[k].ts == update.ts && updates[k].blockId == update.blockId
  }

  /** The loop over the transfer elements that do not fit the first update */
  method TransferChunks(update: Update, firstUpdate: Update) returns (updates: seq<Update>)
    requires firstUpdate == FirstUpdate(update)
    ensures updates != [] && updates[0] == firstUpdate && ChunksAfterFirst(updates) && SameHead(updates, update)
    ensures MergeAll(updates) == firstUpdate.(transferElems := update.transferElems)
  {
    updates := [firstUpdate];
    var i := INITIAL_CHUNK_SIZE;
    while i < |update.transferElems|
      invariant updates != [] && updates[0] == firstUpdate && INITIAL_CHUNK_SIZE <= i && ChunksAfterFirst(updates)
      invariant SameHead(updates, update)
      invariant MergeAll(updates) ==
        firstUpdate.(transferElems := update.transferElems[..Min(i, |update.transferElems|)])
      decreases |update.transferElems| - i
    {
      var end := Min(i + CHUNK_SIZE, |update.transferElems|);
      var next := Update(update.kind, update.ts, update.blockId, EMPTY_CORE, update.transferElems[i..end], []);
      MergeOne(updates, next);
      assert update.transferElems[..i] + update.transferElems[i..end] == update.transferElems[..end];
      updates := updates + [next];
      i := i + CHUNK_SIZE;
    }
    assert update.transferElems[..|update.transferElems|] == update.transferElems;
  }

  /** The loop over the state that does not fit the first update */
  method StateChunks(update: Update, firstUpdate: Update, before: seq<Update>) returns (updates: seq<Update>)
    requires firstUpdate == FirstUpdate(update)
    requires before != [] && before[0] == firstUpdate && ChunksAfterFirst(before) && SameHead(before, update)
    requires MergeAll(before) == firstUpdate.(transferElems := update.transferElems)
    ensures updates != [] && updates[0] == firstUpdate && ChunksAfterFirst(updates) && MergeAll(updates) == update
    ensures SameHead(updates, update)
  {
    updates := before;
    var i := INITIAL_CHUNK_SIZE;
    while i < |update.stateSync|
      invariant updates != [] && updates[0] == firstUpdate && INITIAL_CHUNK_SIZE <= i && ChunksAfterFirst(updates)
      invariant SameHead(updates, update)
      invariant MergeAll(updates) == update.(stateSync := update.stateSync[..Min(i, |update.stateSync|)])
      decreases |update.stateSync| - i
    {
      var end := Min(i + CHUNK_SIZE, |update.stateSync|);
      var next := Update(update.kind, update.ts, update.blockId, EMPTY_CORE, [], update.stateSync[i..end]);
      MergeOne(updates, next);
      assert update.stateSync[..i] + update.stateSync[i..end] == update.stateSync[..end];
      updates := updates + [next];
      i := i + CHUNK_SIZE;
    }
    assert update.stateSync[..|update.stateSync|] == update.stateSync;
  }

  /** The parts of an update that its first chunk has room for */
  function FirstUpdate(update: Update): Update {
    var t0, s0 := Min(INITIAL_CHUNK_SIZE, |update.transferElems|), Min(INITIAL_CHUNK_SIZE, |update.stateSync|);
    Update(update.kind, update.ts, update.blockId, update.core, update.transferElems[..t0], update.stateSync[..s0])
  }

  // ---------------------------------------------------------------- what is read out can be sent

  lemma {:induction false} ReadOutIds(t: Tree, id: StarId)
    requires ReadOut(t).Some? && HasId(ReadOut(t).value, id)
    ensures In(t, id)
    decreases t, 1, 0
  {
    if IsBaseTag(t.c.tag) {
      if t.c.tag != TEXT_TAG && id != t.id {
        var i :| 0 <= i < |ReadKids(t.kids)| && HasId(ReadKids(t.kids)[i], id);
        assert t.kids[..|t.kids|] == t.kids;
        ReadKidsIds(t, |t.kids|, i, id);
      }
    } else if t.c.tag != TEXT_TAG {
      ReadOutIds(t.kids[0], id);
    }
  }

  lemma {:induction false} ReadKidsIds(t: Tree, n: nat, i: nat, id: StarId)
    requires n <= |t.kids| && i < |ReadKids(t.kids[..n])| && HasId(ReadKids(t.kids[..n])[i], id)
    ensures InAny(t.kids[..n], id)
    decreases t, 0, n
  {
    ReadKidsStep(t.kids, n);
    var before := ReadKids(t.kids[..n - 1]);
    if i < |before| {
      ReadKidsIds(t, n - 1, i, id);
      var k :| 0 <= k < n - 1 && In(t.kids[..n - 1][k], id);
      assert t.kids[..n][k] == t.kids[k];
    } else {
      ReadOutIds(t.kids[n - 1], id);
      assert t.kids[..n][n - 1] == t.kids[n - 1];
    }
  }

  lemma {:induction false} ReadOutDistinct(t: Tree)
    requires Distinct(t) && (forall id :: In(t, id) ==> id.Uuid?) && ReadOut(t).Some?
    ensures DistinctIds(ReadOut(t).value) && Bare(ReadOut(t).value)
    decreases t, 1, 0
  {
    KidsUuid(t);
    if IsBaseTag(t.c.tag) {
      if t.c.tag != TEXT_TAG {
        assert In(t, t.id) && t.kids[..|t.kids|] == t.kids;
        ReadKidsDistinct(t, |t.kids|);
        var es := ReadKids(t.kids);
        forall i | 0 <= i < |es|
          ensures !HasId(es[i], t.id)
        {
          if HasId(es[i], t.id) {
            ReadKidsIds(t, |t.kids|, i, t.id);
          }
        }
      }
    } else if t.c.tag != TEXT_TAG {
      ReadOutDistinct(t.kids[0]);
    }
  }

  lemma KidsUuid(t: Tree)
    requires Distinct(t) && forall id :: In(t, id) ==> id.Uuid?
    ensures forall k, id :: 0 <= k < |t.kids| && In(t.kids[k], id) ==> id.Uuid?
  {
    forall k, id | 0 <= k < |t.kids| && In(t.kids[k], id)
      ensures id.Uuid?
    {
      assert In(t, id);
    }
  }

  lemma {:induction false} ReadKidsDistinct(t: Tree, n: nat)
    requires Distinct(t) && n <= |t.kids| && forall k, id :: 0 <= k < |t.kids| && In(t.kids[k], id) ==> id.Uuid?
    ensures ApartElems(ReadKids(t.kids[..n]))
    ensures forall i :: 0 <= i < |ReadKids(t.kids[..n])| ==>
      DistinctIds(ReadKids(t.kids[..n])[i]) && Bare(ReadKids(t.kids[..n])[i])
    decreases t, 0, n
  {
    if n > 0 {
      ReadKidsStep(t.kids, n);
      ReadKidsDistinct(t, n - 1);
      if ReadOut(t.kids[n - 1]).Some? {
        ReadOutDistinct(t.kids[n - 1]);
        var before, last := ReadKids(t.kids[..n - 1]), ReadOut(t.kids[n - 1]).value;
        forall i, id | 0 <= i < |before| && HasId(before[i], id)
          ensures !HasId(last, id)
        {
          ReadKidsIds(t, n - 1, i, id);
          var k :| 0 <= k < n - 1 && In(t.kids[..n - 1][k], id);
          if HasId(last, id) {
            ReadOutIds(t.kids[n - 1], id);
          }
        }
      }
    }
  }

  lemma MountedUuid(cfuncs: map<string, CFunc>, m: CompMap, u: UsedBy, lo: nat, t: Tree)
    requires Mounted(cfuncs, m, u, Some(t)) && Issued(m, u, lo)
    ensures forall id :: In(t, id) ==> id.Uuid?
  {
    forall id | In(t, id)
      ensures id.Uuid?
    {
      InTreeInMap(m, t, id);
      assert FreshId(id, 0, lo);
    }
  }

  const NULL_TAG := "star:null"

  /** makeNullVDom, under any id */
  function NullVDom(id: StarId): Elem {
    Elem(id, NULL_TAG, map[], [], "")
  }

  /** fullRender, up to the element that is sent: the expansion of the root element, with the hooks of the tree `mid`
      that the work queued before has led to, or a null element if that is empty. */
  method FullRender(r: RootElem, elem: Elem, nullId: nat)
      returns (panicked: bool, vdom: Elem, ghost mid: Option<Tree>)
    requires r.Valid() && (elem.tag != "" ==> r.scope.has(elem))
    modifies r
    ensures r.Valid()
    ensures panicked <==> old(r.needsRender) != {} && old(r.root).None?
    ensures panicked || old(r.needsRender) == {} ==> mid == old(r.tree)
    ensures !panicked && old(r.needsRender) != {} ==>
      StripO(ReadO(mid)) == Expand(r.EnvNow(), r.scope, old(r.tree).value.c.elem, old(r.tree))
    ensures !panicked ==>
      r.effectQueue == (if old(r.needsRender) == {} then [] else QueuedO(old(r.tree), mid)) + QueuedO(mid, r.tree)
    ensures !panicked ==> Strip(vdom) == OrNull(Expand(r.EnvNow(), r.scope, elem, mid))
    ensures !panicked ==> DistinctRoots([vdom]) && (vdom.tag == TEXT_TAG <==> IsText(ReadO(r.tree)))
  {
    hide Expand, DistinctRoots, Mounted, Issued, ReadOut, Closed, Accounted, Queued;
    vdom, mid := NullVDom(NoId), r.tree;
    panicked := r.RunWork();
    if panicked {
      return;
    }
    mid := r.tree;
    r.RenderRoot(Some(elem));
    var renderedVDom := r.MakeVDom();
    if renderedVDom.Some? {
      vdom := renderedVDom.value;
      MountedUuid(r.cfuncs, r.compMap, r.owned, r.nextId, r.tree.value);
      ReadDistinct(r.cfuncs, r.compMap, r.owned, r.tree.value);
    } else {
      vdom := NullVDom(Uuid(nullId));
      NullDistinct(nullId);
    }
  }

  function OrNull(e: Option<Elem>): Elem {
    if e.Some? then e.value else NullVDom(NoId)
  }

  predicate IsText(e: Option<Elem>) {
    e.Some? && e.value.tag == TEXT_TAG
  }

  /** A full render, and sending its update. What the frontend rebuilds from the merged chunks for the root that they
      name is, up to ids, the expansion of the element or a null element; and it rebuilds something exactly if what was
      rendered is not a bare text. The update says whether there are effects to run. */
  method RenderAndSend(r: RootElem, elem: Elem, ts: int, blockId: string, opts: Option<string>,
                       refOperations: seq<string>, stateSync: seq<StateSync>, nullId: nat)
      returns (panicked: bool, updates: seq<Update>, vdomStarId: StarId, ghost mid: Option<Tree>)
    requires r.Valid() && (elem.tag != "" ==> r.scope.has(elem))
    modifies r
    ensures r.Valid()
    ensures panicked <==> old(r.needsRender) != {} && old(r.root).None?
    ensures panicked || old(r.needsRender) == {} ==> mid == old(r.tree)
    ensures !panicked && old(r.needsRender) != {} ==>
      StripO(ReadO(mid)) == Expand(r.EnvNow(), r.scope, old(r.tree).value.c.elem, old(r.tree))
    ensures !panicked ==>
      r.effectQueue == (if old(r.needsRender) == {} then [] else QueuedO(old(r.tree), mid)) + QueuedO(mid, r.tree)
    ensures !panicked ==> updates != []
    ensures !panicked ==> forall k :: 0 <= k < |updates| ==>
      updates[k].kind == "backendupdate" && updates[k].ts == ts && updates[k].blockId == blockId
    ensures !panicked ==>
      && updates[0].core == Core(opts, r.effectQueue != [], [vdomStarId], refOperations, [])
      && MergeAll(updates) == Update("backendupdate", ts, blockId, updates[0].core, MergeAll(updates).transferElems,
           stateSync)
    ensures !panicked ==>
      var m := ElemMap(MergeAll(updates).transferElems);
      var shown := Expand(r.EnvNow(), r.scope, elem, mid);
      && (forall e :: Restores(m, vdomStarId, e) ==>
           Strip(Unlabeled(e)) == if shown.Some? then shown.value else Elem(NoId, "star:null", map[], [], ""))
      && ((exists e :: Restores(m, vdomStarId, e)) <==> !IsText(ReadO(r.tree)))
  {
    hide Expand, Restores, DistinctRoots, ReadOut, LastById, Unlabeled, Queued, Strip;
    updates, vdomStarId := [], NoId;
    var vdom;
    panicked, vdom, mid := FullRender(r, elem, nullId);
    if panicked {
      return;
    }
    var core := Core(opts, |r.effectQueue| > 0, [vdom.starId], refOperations, []);
    updates, vdomStarId := SendVDom(vdom, ts, blockId, core, stateSync);
    SentRestores(vdom, MergeAll(updates).transferElems);
  }

  /** CreateTransferElems for one element, and SplitBackendUpdate */
  method SendVDom(vdom: Elem, ts: int, blockId: string, core: Core, stateSync: seq<StateSync>)
      returns (updates: seq<Update>, vdomStarId: StarId)
    ensures updates != [] && vdomStarId == vdom.starId && updates[0].core == core
    ensures MergeAll(updates) ==
      Update("backendupdate", ts, blockId, core, MergeAll(updates).transferElems, stateSync)
    ensures SameHead(updates, MergeAll(updates))
    ensures LastById(MergeAll(updates).transferElems) == LastById(FlattenAll([vdom]).out)
  {
    hide DistinctWire, LastById, FirstIds, FlattenAll;
    vdomStarId := vdom.starId;
    var elems := ConvertElemsToTransferElems([vdom]);
    var transferElems := DedupTransferElems(elems);
    DedupKeepsMap(elems, transferElems);
    updates := SplitBackendUpdate(Update("backendupdate", ts, blockId, core, transferElems, stateSync));
  }

  /** What is sent for one element rebuilds it, unless it is a bare text. */
  lemma {:induction false} SentRestores(vdom: Elem, ts: seq<TransferElem>)
    requires DistinctRoots([vdom]) && LastById(ts) == LastById(FlattenAll([vdom]).out)
    ensures (exists e :: Restores(ElemMap(ts), vdom.starId, e)) <==> vdom.tag != TEXT_TAG
    ensures forall e :: Restores(ElemMap(ts), vdom.starId, e) ==> Unlabeled(e) == vdom
  {
    hide DistinctRoots, LastById, FlattenAll, Restores, Unlabeled;
    RoundTrip([vdom], ts, 0);
  }

  lemma NullDistinct(nullId: nat)
    ensures DistinctRoots([NullVDom(Uuid(nullId))]) && Strip(NullVDom(Uuid(nullId))) == NullVDom(NoId)
  {
  }

  lemma ReadDistinct(cfuncs: map<string, CFunc>, m: CompMap, u: UsedBy, t: Tree)
    requires Mounted(cfuncs, m, u, Some(t)) && (forall id :: In(t, id) ==> id.Uuid?) && ReadOut(t).Some?
    ensures DistinctRoots([ReadOut(t).value])
  {
    ReadOutDistinct(t);
  }
}
