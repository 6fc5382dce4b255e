/** The wire form of a rendered tree (vdom_root.go: ConvertElemsToTransferElems, DedupTransferElems,
    CreateTransferElems, SplitBackendUpdate) and the frontend functions that undo it (vdom-utils.tsx:
    mergeBackendUpdates, restoreVDomElems). */
module VDomTransfer {
  import opened VDomTypes

  datatype TransferElem = TransferElem(starId: StarId, tag: string, props: map<string, PropVal>, children: seq<StarId>,
    text: string)

  // ---------------------------------------------------------------- flattening

  datatype Flattened = Flattened(ids: seq<StarId>, out: seq<TransferElem>, next: nat)

  /** processElem: the ids and transfer elements of a tree, with the text counter starting at n. */
  ghost function Flatten(e: Elem, n: nat): (r: Flattened)
    ensures |r.ids| == 1 && n <= r.next
    decreases e, 1, 0
  {
    if e.tag == TEXT_TAG then
      Flattened([TextId(n)], [TransferElem(TextId(n), e.tag, map[], [], e.text)], n + 1)
    else
      var kids := FlattenKids(e, |e.children|, n);
      Flattened([e.starId], kids.out + [TransferElem(e.starId, e.tag, e.props, kids.ids, e.text)], kids.next)
  }

  /** The first k children, in order. */
  ghost function FlattenKids(e: Elem, k: nat, n: nat): (r: Flattened)
    requires k <= |e.children|
    ensures |r.ids| == k && n <= r.next
    decreases e, 0, k
  {
    if k == 0 then Flattened([], [], n)
    else
      var before := FlattenKids(e, k - 1, n);
      var last := Flatten(e.children[k - 1], before.next);
      Flattened(before.ids + last.ids, before.out + last.out, last.next)
  }

  /** All roots. */
  ghost function FlattenAll(es: seq<Elem>): Flattened {
    if es == [] then Flattened([], [], 0)
    else
      var before := FlattenAll(es[..|es| - 1]);
      var last := Flatten(es[|es| - 1], before.next);
      Flattened(before.ids + last.ids, before.out + last.out, last.next)
  }

  class Encoder {
    var transferElems: seq<TransferElem>
    var textCounter: nat

    constructor ()
      ensures transferElems == [] && textCounter == 0
    {
      transferElems, textCounter := [], 0;
    }

    method ProcessElem(elem: Elem) returns (id: StarId)
      modifies this
      ensures var r := Flatten(elem, old(textCounter));
        [id] == r.ids && transferElems == old(transferElems) + r.out && textCounter == r.next
      decreases elem
    {
      if elem.tag == TEXT_TAG {
        var textId := TextId(textCounter);
        textCounter := textCounter + 1;
        transferElems := transferElems + [TransferElem(textId, elem.tag, map[], [], elem.text)];
        return textId;
      }
      var childrenIds: seq<StarId> := [];
      for i := 0 to |elem.children|
        invariant var r := FlattenKids(elem, i, old(textCounter));
          childrenIds == r.ids && transferElems == old(transferElems) + r.out && textCounter == r.next
      {
        var childId := ProcessElem(elem.children[i]);
        childrenIds := childrenIds + [childId];
      }
      transferElems := transferElems + [TransferElem(elem.starId, elem.tag, elem.props, childrenIds, elem.text)];
      return elem.starId;
    }
  }

  method ConvertElemsToTransferElems(elems: seq<Elem>) returns (transferElems: seq<TransferElem>)
    ensures transferElems == FlattenAll(elems).out
  {
    var enc := new Encoder();
    for i := 0 to |elems|
      invariant enc.transferElems == FlattenAll(elems[..i]).out && enc.textCounter == FlattenAll(elems[..i]).next
    {
      var _ := enc.ProcessElem(elems[i]);
      assert elems[..i + 1][..i] == elems[..i];
    }
    assert elems[..|elems|] == elems;
    return enc.transferElems;
  }

  // ---------------------------------------------------------------- deduplication

  /** Each id with the last transfer element that has it. */
  ghost function LastById(ts: seq<TransferElem>): map<StarId, TransferElem> {
    if ts == [] then map[] else LastById(ts[..|ts| - 1])[ts[|ts| - 1].starId := ts[|ts| - 1]]
  }

  /** The ids in the order of their first occurrence. */
  ghost function FirstIds(ts: seq<TransferElem>): seq<StarId> {
    if ts == [] then []
    else
      var before := FirstIds(ts[..|ts| - 1]);
      if ts[|ts| - 1].starId in before then before else before + [ts[|ts| - 1].starId]
  }

  lemma {:induction false} FirstIdsFacts(ts: seq<TransferElem>)
    ensures forall id :: id in FirstIds(ts) <==> id in LastById(ts)
    ensures forall i, j :: 0 <= i < j < |FirstIds(ts)| ==> FirstIds(ts)[i] != FirstIds(ts)[j]
    ensures forall id :: id in LastById(ts) ==> LastById(ts)[id].starId == id
  {
    if ts != [] {
      FirstIdsFacts(ts[..|ts| - 1]);
    }
  }

  /** An id comes after exactly the ids that have occurred before it, */
  lemma {:induction false} FirstOccurrence(ts: seq<TransferElem>, p: nat)
    requires p < |ts| && forall q :: 0 <= q < p ==> ts[q].starId != ts[p].starId
    ensures FirstIds(ts[..p]) + [ts[p].starId] <= FirstIds(ts)
    ensures forall id :: id in FirstIds(ts[..p]) <==> exists q :: 0 <= q < p && ts[q].starId == id
    decreases |ts|
  {
    var n := |ts| - 1;
    IdsOccur(ts[..p]);
    if p < n {
      FirstOccurrence(ts[..n], p);
      assert ts[..n][..p] == ts[..p];
    }
  }

  lemma {:induction false} IdsOccur(ts: seq<TransferElem>)
    ensures forall id :: id in FirstIds(ts) <==> exists q :: 0 <= q < |ts| && ts[q].starId == id
  {
    if ts != [] {
      var n := |ts| - 1;
      IdsOccur(ts[..n]);
      forall id
        ensures id in FirstIds(ts) <==> exists q :: 0 <= q < |ts| && ts[q].starId == id
      {
        if id in FirstIds(ts[..n]) {
          var q :| 0 <= q < n && ts[..n][q].starId == id;
          assert ts[q].starId == id;
        }
        if q :| 0 <= q < |ts| && ts[q].starId == id && q < n {
          assert ts[..n][q].starId == id;
        }
      }
    }
  }

  /** and has the value of its last occurrence. */
  lemma {:induction false} LastOccurrence(ts: seq<TransferElem>, p: nat)
    requires p < |ts| && forall q :: p < q < |ts| ==> ts[q].starId != ts[p].starId
    ensures ts[p].starId in LastById(ts) && LastById(ts)[ts[p].starId] == ts[p]
    decreases |ts|
  {
    var n := |ts| - 1;
    if p < n {
      LastOccurrence(ts[..n], p);
    }
  }

  /** Every id once, at the place of its first occurrence, with its last value. */
  method DedupTransferElems(elems: seq<TransferElem>) returns (result: seq<TransferElem>)
    ensures |result| == |FirstIds(elems)|
    ensures forall k :: 0 <= k < |result| ==> result[k].starId == FirstIds(elems)[k]
    ensures forall k :: 0 <= k < |result| ==>
      result[k].starId in LastById(elems) && result[k] == LastById(elems)[result[k].starId]
  {
    hide FirstIds, LastById;
    var seen: map<StarId, nat> := map[];
    result := [];
    DedupNone(elems);
    for n := 0 to |elems|
      invariant |result| == |FirstIds(elems[..n])|
      invariant forall k :: 0 <= k < |result| ==> result[k].starId == FirstIds(elems[..n])[k]
      invariant forall k :: 0 <= k < |result| ==>
        result[k].starId in LastById(elems[..n]) && result[k] == LastById(elems[..n])[result[k].starId]
      invariant forall id :: id in seen ==> seen[id] < |result| && result[seen[id]].starId == id
      invariant forall id :: id in seen <==> id in FirstIds(elems[..n])
    {
      var elem := elems[n];
      DedupStep(elems, n);
      FirstIdsFacts(elems[..n]);
      if elem.starId in seen {
        result := result[seen[elem.starId] := elem];
      } else {
        seen := seen[elem.starId := |result|];
        result := result + [elem];
      }
    }
    assert elems[..|elems|] == elems;
  }

  lemma DedupNone(elems: seq<TransferElem>)
    ensures LastById(elems[..0]) == map[] && FirstIds(elems[..0]) == []
  {
  }

  lemma DedupStep(elems: seq<TransferElem>, n: nat)
    requires n < |elems|
    ensures LastById(elems[..n + 1]) == LastById(elems[..n])[elems[n].starId := elems[n]]
    ensures var before := FirstIds(elems[..n]);
            FirstIds(elems[..n + 1]) == if elems[n].starId in before then before else before + [elems[n].starId]
  {
    assert elems[..n + 1][..n] == elems[..n];
  }

  // ---------------------------------------------------------------- restoring trees

  /** The map of restoreVDomElems; elements without an id are skipped. */
  ghost function ElemMap(ts: seq<TransferElem>): map<StarId, TransferElem> {
    LastById(ts) - {NoId}
  }

  ghost function Present(m: map<StarId, TransferElem>, ids: seq<StarId>): seq<StarId> {
    if ids == [] then []
    else Present(m, ids[..|ids| - 1]) + (if ids[|ids| - 1] in m then [ids[|ids| - 1]] else [])
  }

  /** The element that restoreVDomElems links together for an id is the tree e. */
  ghost predicate Restores(m: map<StarId, TransferElem>, id: StarId, e: Elem)
    decreases e
  {
    && id in m
    && e.starId == m[id].starId && e.tag == m[id].tag && e.props == m[id].props && e.text == m[id].text
    && |e.children| == |Present(m, m[id].children)|
    && forall i :: 0 <= i < |e.children| ==> Restores(m, Present(m, m[id].children)[i], e.children[i])
  }

  lemma {:induction false} RestoresUnique(m: map<StarId, TransferElem>, id: StarId, a: Elem, b: Elem)
    requires Restores(m, id, a) && Restores(m, id, b)
    ensures a == b
    decreases a
  {
    forall i | 0 <= i < |a.children|
      ensures a.children[i] == b.children[i]
    {
      RestoresUnique(m, Present(m, m[id].children)[i], a.children[i], b.children[i]);
    }
  }

  /** Text nodes are bare: no id, no properties, no children; and nothing else has text. */
  ghost predicate Bare(e: Elem) {
    if e.tag == TEXT_TAG then e.starId == NoId && e.props == map[] && e.children == []
    else forall i :: 0 <= i < |e.children| ==> Bare(e.children[i])
  }

  /** Some element other than a text node has this id. */
  ghost predicate HasId(e: Elem, id: StarId) {
    e.tag != TEXT_TAG && (e.starId == id || exists i :: 0 <= i < |e.children| && HasId(e.children[i], id))
  }

  ghost predicate ApartElems(es: seq<Elem>) {
    forall i, j, id :: 0 <= i < j < |es| && HasId(es[i], id) ==> !HasId(es[j], id)
  }

  /** The ids of the elements are distinct, and none of them is a text id or missing. */
  ghost predicate DistinctIds(e: Elem) {
    e.tag != TEXT_TAG ==>
      && e.starId.Uuid?
      && (forall i :: 0 <= i < |e.children| ==> !HasId(e.children[i], e.starId) && DistinctIds(e.children[i]))
      && ApartElems(e.children)
  }

  /** The tree as the frontend has it: text nodes carry their wire ids. */
  ghost function Labeled(e: Elem, n: nat): Elem
    decreases e, 1
  {
    if e.tag == TEXT_TAG then Elem(TextId(n), TEXT_TAG, map[], [], e.text)
    else
      e.(children :=
        seq(|e.children|, i requires 0 <= i < |e.children| => Labeled(e.children[i], FlattenKids(e, i, n).next)))
  }

  /** Forgetting the wire ids of text nodes. */
  ghost function Unlabeled(e: Elem): Elem {
    if e.tag == TEXT_TAG then e.(starId := NoId)
    else e.(children := seq(|e.children|, i requires 0 <= i < |e.children| => Unlabeled(e.children[i])))
  }

  lemma {:induction false} UnlabeledLabeled(e: Elem, n: nat)
    requires Bare(e)
    ensures Unlabeled(Labeled(e, n)) == e
    decreases e
  {
    if e.tag != TEXT_TAG {
      var l := Labeled(e, n);
      forall i | 0 <= i < |e.children|
        ensures Unlabeled(l.children[i]) == e.children[i]
      {
        UnlabeledLabeled(e.children[i], FlattenKids(e, i, n).next);
      }
      assert Unlabeled(l).children == e.children;
    }
  }

  /** The map has every transfer element of the list under its id. */
  ghost predicate HasAll(m: map<StarId, TransferElem>, ts: seq<TransferElem>) {
    forall k :: 0 <= k < |ts| ==> ts[k].starId in m && m[ts[k].starId] == ts[k]
  }

  lemma {:induction false} PresentAll(m: map<StarId, TransferElem>, ids: seq<StarId>)
    requires forall id :: id in ids ==> id in m
    ensures Present(m, ids) == ids
  {
    if ids != [] {
      var front := ids[..|ids| - 1];
      assert ids == front + [ids[|ids| - 1]] && forall id :: id in front ==> id in ids;
      PresentAll(m, front);
    }
  }

  lemma {:induction false} FlattenRestores(m: map<StarId, TransferElem>, e: Elem, n: nat)
    requires HasAll(m, Flatten(e, n).out)
    ensures Restores(m, Flatten(e, n).ids[0], Labeled(e, n))
    decreases e
  {
    var r := Flatten(e, n);
    assert r.out[|r.out| - 1].starId == r.ids[0];
    if e.tag == TEXT_TAG {
      assert m[r.ids[0]].children == [];
    } else {
      var kids := FlattenKids(e, |e.children|, n);
      assert forall k :: 0 <= k < |kids.out| ==> r.out[k] == kids.out[k];
      forall i | 0 <= i < |e.children|
        ensures kids.ids[i] in m && Restores(m, kids.ids[i], Labeled(e.children[i], FlattenKids(e, i, n).next))
      {
        KidPart(e, i, |e.children|, n);
        FlattenRestores(m, e.children[i], FlattenKids(e, i, n).next);
      }
      PresentAll(m, kids.ids);
    }
  }

  /** The part of the flattened children that comes from child i. */
  lemma {:induction false} KidPart(e: Elem, i: nat, k: nat, n: nat)
    requires i < k <= |e.children|
    ensures var last := Flatten(e.children[i], FlattenKids(e, i, n).next);
      && FlattenKids(e, k, n).ids[i] == last.ids[0]
      && forall x :: 0 <= x < |last.out| ==> last.out[x] in FlattenKids(e, k, n).out
    decreases k
  {
    if i < k - 1 {
      KidPart(e, i, k - 1, n);
    }
  }

  // ---------------------------------------------------------------- distinct ids on the wire

  ghost predicate WireId(es: seq<Elem>, lo: nat, hi: nat, id: StarId) {
    (id.TextId? && lo <= id.n < hi) || (id.Uuid? && exists i :: 0 <= i < |es| && HasId(es[i], id))
  }

  ghost predicate DistinctWire(ts: seq<TransferElem>) {
    forall i, j :: 0 <= i < j < |ts| ==> ts[i].starId != ts[j].starId
  }

  lemma {:induction false} FlattenIds(e: Elem, n: nat)
    requires DistinctIds(e)
    ensures var r := Flatten(e, n);
      DistinctWire(r.out) && forall k :: 0 <= k < |r.out| ==> WireId([e], n, r.next, r.out[k].starId)
    decreases e, 1, 0
  {
    if e.tag != TEXT_TAG {
      FlattenKidsIds(e, |e.children|, n);
      var r, kids := Flatten(e, n), FlattenKids(e, |e.children|, n);
      forall k | 0 <= k < |r.out|
        ensures WireId([e], n, r.next, r.out[k].starId)
        ensures k < |r.out| - 1 ==> r.out[k].starId != e.starId
      {
        assert [e][0] == e;
        if k < |r.out| - 1 {
          assert r.out[k] == kids.out[k];
          if kids.out[k].starId.Uuid? {
            var i :| 0 <= i < |e.children[..|e.children|]| && HasId(e.children[..|e.children|][i], kids.out[k].starId);
            assert HasId(e.children[i], kids.out[k].starId);
          }
        }
      }
    }
  }

  lemma {:induction false} FlattenKidsIds(e: Elem, k: nat, n: nat)
    requires DistinctIds(e) && e.tag != TEXT_TAG && k <= |e.children|
    ensures var r := FlattenKids(e, k, n);
      DistinctWire(r.out) && forall x :: 0 <= x < |r.out| ==> WireId(e.children[..k], n, r.next, r.out[x].starId)
    decreases e, 0, k
  {
    if k > 0 {
      hide DistinctWire, WireId, Flatten;
      FlattenKidsIds(e, k - 1, n);
      var before := FlattenKids(e, k - 1, n);
      FlattenIds(e.children[k - 1], before.next);
      var last, es := Flatten(e.children[k - 1], before.next), e.children[..k];
      assert es[..k - 1] == e.children[..k - 1] && es[..k - 1 + 1] == es && es[k - 1] == e.children[k - 1];
      assert forall x :: 0 <= x < |last.out| ==> WireId([es[k - 1]], before.next, last.next, last.out[x].starId);
      AppendWire(es, k - 1, n, before.out, before.next, last.out, last.next);
    }
  }

  lemma {:induction false} AppendWire(es: seq<Elem>, k: nat, n: nat, a: seq<TransferElem>, mid: nat,
                                      b: seq<TransferElem>, hi: nat)
    requires k < |es| && n <= mid <= hi && ApartElems(es)
    requires DistinctWire(a) && forall x :: 0 <= x < |a| ==> WireId(es[..k], n, mid, a[x].starId)
    requires DistinctWire(b) && forall x :: 0 <= x < |b| ==> WireId([es[k]], mid, hi, b[x].starId)
    ensures DistinctWire(a + b) && forall x :: 0 <= x < |a + b| ==> WireId(es[..k + 1], n, hi, (a + b)[x].starId)
  {
    forall x | 0 <= x < |a|
      ensures WireId(es[..k + 1], n, hi, a[x].starId)
      ensures a[x].starId.Uuid? ==> exists i :: 0 <= i < k && HasId(es[i], a[x].starId)
    {
      if a[x].starId.Uuid? {
        var i :| 0 <= i < |es[..k]| && HasId(es[..k][i], a[x].starId);
        assert HasId(es[..k + 1][i], a[x].starId) && HasId(es[i], a[x].starId);
      }
    }
    forall x | 0 <= x < |b|
      ensures WireId(es[..k + 1], n, hi, b[x].starId)
      ensures b[x].starId.Uuid? ==> HasId(es[k], b[x].starId)
    {
      if b[x].starId.Uuid? {
        assert HasId(es[..k + 1][k], b[x].starId);
      }
    }
  }

  lemma {:induction false} LastByIdHasAll(ts: seq<TransferElem>)
    requires DistinctWire(ts)
    ensures HasAll(LastById(ts), ts)
    ensures forall id :: id in LastById(ts) ==> exists k :: 0 <= k < |ts| && ts[k].starId == id
  {
    if ts != [] {
      var before := ts[..|ts| - 1];
      LastByIdHasAll(before);
      forall id | id in LastById(ts)
        ensures exists k :: 0 <= k < |ts| && ts[k].starId == id
      {
        if id in LastById(before) {
          var k :| 0 <= k < |before| && before[k].starId == id;
          assert ts[k].starId == id;
        } else {
          assert ts[|ts| - 1].starId == id;
        }
      }
      forall k | 0 <= k < |ts| - 1
        ensures ts[k].starId in LastById(ts) && LastById(ts)[ts[k].starId] == ts[k]
      {
        assert before[k] == ts[k];
      }
    }
  }

  /** Deduplication does not change what the frontend builds. */
  lemma {:induction false} DedupKeepsMap(ts: seq<TransferElem>, result: seq<TransferElem>)
    requires |result| == |FirstIds(ts)|
    requires forall k :: 0 <= k < |result| ==> result[k].starId == FirstIds(ts)[k]
    requires forall k :: 0 <= k < |result| ==>
      result[k].starId in LastById(ts) && result[k] == LastById(ts)[result[k].starId]
    ensures LastById(result) == LastById(ts) && DistinctWire(result)
  {
    FirstIdsFacts(ts);
    LastByIdHasAll(result);
    forall id
      ensures id in LastById(result) <==> id in LastById(ts)
    {
      if id in LastById(ts) {
        var k :| 0 <= k < |FirstIds(ts)| && FirstIds(ts)[k] == id;
        assert result[k].starId == id;
      }
    }
    forall id | id in LastById(result)
      ensures LastById(result)[id] == LastById(ts)[id]
    {
      var k :| 0 <= k < |result| && result[k].starId == id;
    }
  }

  // ---------------------------------------------------------------- the round trip

  ghost predicate DistinctRoots(es: seq<Elem>) {
    ApartElems(es) && forall i :: 0 <= i < |es| ==> DistinctIds(es[i]) && Bare(es[i])
  }

  lemma {:induction false} RootsWire(es: seq<Elem>)
    requires DistinctRoots(es)
    ensures var r := FlattenAll(es);
      DistinctWire(r.out) && forall x :: 0 <= x < |r.out| ==> WireId(es, 0, r.next, r.out[x].starId)
  {
    if es != [] {
      var k := |es| - 1;
      assert forall i :: 0 <= i < k ==> es[..k][i] == es[i];
      RootsWire(es[..k]);
      var before := FlattenAll(es[..k]);
      FlattenIds(es[k], before.next);
      AppendWire(es, k, 0, before.out, before.next, Flatten(es[k], before.next).out, Flatten(es[k], before.next).next);
      assert es[..k + 1] == es;
    }
  }

  /** The part of the flattened roots that comes from root i. */
  lemma {:induction false} RootPart(es: seq<Elem>, i: nat)
    requires i < |es|
    ensures var last := Flatten(es[i], FlattenAll(es[..i]).next);
      forall x :: x in last.out ==> x in FlattenAll(es).out
    decreases |es|
  {
    if i < |es| - 1 {
      RootPart(es[..|es| - 1], i);
      assert es[..|es| - 1][..i] == es[..i];
    } else {
      assert es[..|es| - 1] == es[..i];
    }
  }

  /** From the transfer elements of all roots, however deduplicated, the frontend rebuilds each root that is not a
      bare text, up to the ids of text nodes, and nothing else under its id. */
  lemma {:induction false} RoundTrip(es: seq<Elem>, ts: seq<TransferElem>, i: nat)
    requires DistinctRoots(es) && i < |es|
    requires LastById(ts) == LastById(FlattenAll(es).out)
    ensures es[i].tag != TEXT_TAG ==> exists e :: Restores(ElemMap(ts), es[i].starId, e)
    ensures forall e :: Restores(ElemMap(ts), es[i].starId, e) ==> es[i].tag != TEXT_TAG && Unlabeled(e) == es[i]
  {
    hide DistinctRoots, Flatten, FlattenAll, Restores, Labeled, Unlabeled, Bare, HasAll, LastById;
    var n := FlattenAll(es[..i]).next;
    RootHasAll(es, ts, i);
    RootBare(es, i);
    if es[i].tag != TEXT_TAG {
      FlattenRestores(ElemMap(ts), es[i], n);
      FlattenId(es[i], n);
      UnlabeledLabeled(es[i], n);
      forall e | Restores(ElemMap(ts), es[i].starId, e)
        ensures Unlabeled(e) == es[i]
      {
        RestoresUnique(ElemMap(ts), es[i].starId, e, Labeled(es[i], n));
      }
    } else {
      forall e
        ensures !Restores(ElemMap(ts), NoId, e)
      {
        NothingUnderNoId(ts, e);
      }
    }
  }

  lemma NothingUnderNoId(ts: seq<TransferElem>, e: Elem)
    ensures !Restores(ElemMap(ts), NoId, e)
  {
  }

  lemma FlattenId(e: Elem, n: nat)
    requires e.tag != TEXT_TAG
    ensures Flatten(e, n).ids[0] == e.starId
  {
  }

  lemma RootBare(es: seq<Elem>, i: nat)
    requires DistinctRoots(es) && i < |es|
    ensures Bare(es[i]) && (es[i].tag == TEXT_TAG ==> es[i].starId == NoId)
  {
  }

  lemma {:induction false} RootHasAll(es: seq<Elem>, ts: seq<TransferElem>, i: nat)
    requires DistinctRoots(es) && i < |es|
    requires LastById(ts) == LastById(FlattenAll(es).out)
    ensures HasAll(ElemMap(ts), Flatten(es[i], FlattenAll(es[..i]).next).out)
  {
    hide DistinctRoots, Flatten, FlattenAll, LastById;
    var out := FlattenAll(es).out;
    RootsWire(es);
    LastByIdHasAll(out);
    RootPart(es, i);
    var part := Flatten(es[i], FlattenAll(es[..i]).next).out;
    forall k | 0 <= k < |part|
      ensures part[k].starId in ElemMap(ts) && ElemMap(ts)[part[k].starId] == part[k]
    {
      assert part[k] in out;
      var x :| 0 <= x < |out| && out[x] == part[k];
      assert WireId(es, 0, FlattenAll(es).next, out[x].starId);
    }
  }
}
