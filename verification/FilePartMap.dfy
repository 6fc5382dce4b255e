/** computePartMap and incompletePartsFromMap (blockstore.go). */
module FilePartMap {
  import opened FileLayout
  import opened FileLog

  /** m is the map that computePartMap has built when it has visited the segments before `seg`. */
  ghost predicate PartMapUpTo(opts: Opts, start: nat, end: int, seg: nat, m: map<nat, int>)
    requires ValidOpts(opts)
  {
    && (forall i :: i in m ==> exists n: nat {:trigger PartOfSeg(opts, n)} ::
         Seg(start) <= n < seg && (opts.circular ==> seg <= n + MaxPart(opts)) && PartOfSeg(opts, n) == i &&
           m[i] == SegSize(start, end, n))
    && (forall n: nat {:trigger PartOfSeg(opts, n)} :: Seg(start) <= n < seg ==> PartOfSeg(opts, n) in m)
  }

  lemma {:induction false} PartMapStep(opts: Opts, start: nat, end: int, seg: nat, m: map<nat, int>)
    requires ValidOpts(opts) && Seg(start) <= seg
    requires PartMapUpTo(opts, start, end, seg, m)
    ensures PartMapUpTo(opts, start, end, seg + 1, m[PartOfSeg(opts, seg) := SegSize(start, end, seg)])
  {
    var m' := m[PartOfSeg(opts, seg) := SegSize(start, end, seg)];
    forall i | i in m'
      ensures exists n: nat {:trigger PartOfSeg(opts, n)} ::
        Seg(start) <= n < seg + 1 && (opts.circular ==> seg + 1 <= n + MaxPart(opts)) && PartOfSeg(opts, n) == i &&
          m'[i] == SegSize(start, end, n)
    {
      if opts.circular {
        MaxPartPositive(opts);
      }
      if i != PartOfSeg(opts, seg) {
        var n: nat :| Seg(start) <= n < seg && (opts.circular ==> seg <= n + MaxPart(opts)) &&
          PartOfSeg(opts, n) == i && m[i] == SegSize(start, end, n);
        if opts.circular && seg == n + MaxPart(opts) {
          assert false;
        }
      }
    }
  }

  lemma {:induction false} PartMapDone(opts: Opts, start: nat, end: int, seg: nat, m: map<nat, int>)
    requires ValidOpts(opts) && Seg(start) <= seg
    requires PartMapUpTo(opts, start, end, seg, m)
    requires end <= SegStart(seg)
    requires seg == Seg(start) || SegStart(seg - 1) < end
    ensures IsPartMap(opts, start, end, m)
  {
    forall i | i in m
      ensures exists n: nat {:trigger PartOfSeg(opts, n)} ::
        LastVisit(opts, start, end, n) && PartOfSeg(opts, n) == i && m[i] == SegSize(start, end, n)
    {
      var n: nat :| Seg(start) <= n < seg && (opts.circular ==> seg <= n + MaxPart(opts)) && PartOfSeg(opts, n) == i &&
        m[i] == SegSize(start, end, n);
      IsLastVisit(opts, start, end, seg, n);
    }
    forall n: nat | Visited(start, end, n)
      ensures PartOfSeg(opts, n) in m
    {
      SegOrder(seg, n);
    }
  }

  lemma IsLastVisit(opts: Opts, start: nat, end: int, seg: nat, n: nat)
    requires ValidOpts(opts) && Seg(start) <= n < seg && (opts.circular ==> seg <= n + MaxPart(opts))
    requires end <= SegStart(seg) && SegStart(seg - 1) < end
    ensures LastVisit(opts, start, end, n)
  {
    SegOrder(n, seg - 1);
    if opts.circular {
      MaxPartPositive(opts);
      SegOrder(n, MaxPart(opts));
      SegOrder(seg, n + MaxPart(opts));
    }
  }

  lemma PartMapStart(opts: Opts, start: nat, end: int)
    requires ValidOpts(opts)
    ensures PartMapUpTo(opts, start, end, Seg(start), map[])
  {
  }

  /** computePartMap: the last write to a part's entry is the one that stays. */
  method ComputePartMap(opts: Opts, startOffset: nat, size: int) returns (partMap: map<nat, int>)
    requires ValidOpts(opts)
    ensures IsPartMap(opts, startOffset, startOffset + size, partMap)
  {
    hide PartMapUpTo, IsPartMap;
    partMap := map[];
    var endOffset := startOffset + size;
    SegFacts(startOffset);
    PartMapStart(opts, startOffset, endOffset);
    var testOffset := startOffset - OffInPart(startOffset);
    ghost var seg := Seg(startOffset);
    while testOffset < endOffset
      invariant Seg(startOffset) <= seg && testOffset == SegStart(seg)
      invariant seg == Seg(startOffset) || SegStart(seg - 1) < endOffset
      invariant PartMapUpTo(opts, startOffset, endOffset, seg, partMap)
      decreases endOffset - testOffset
    {
      SegUnique(testOffset, seg);
      var partIdx := Part(opts, testOffset);
      var partWriteStartOffset, partWriteEndOffset := 0, P;
      if testOffset < startOffset < testOffset + P {
        partWriteStartOffset := startOffset - testOffset;
      }
      if testOffset < endOffset < testOffset + P {
        partWriteEndOffset := endOffset - testOffset;
      }
      PartMapStep(opts, startOffset, endOffset, seg, partMap);
      partMap := partMap[partIdx := partWriteEndOffset - partWriteStartOffset];
      SegOrder(seg, 1);
      testOffset, seg := testOffset + P, seg + 1;
    }
    PartMapDone(opts, startOffset, endOffset, seg, partMap);
  }

  /** incompletePartsFromMap */
  method IncompleteParts(partMap: map<nat, int>) returns (parts: set<nat>)
    ensures parts == set i | i in partMap && partMap[i] != P
  {
    parts := {};
    var todo := partMap.Keys;
    while todo != {}
      invariant todo <= partMap.Keys
      invariant parts == set i | i in partMap && i !in todo && partMap[i] != P
      decreases todo
    {
      var i :| i in todo;
      if partMap[i] != P {
        parts := parts + {i};
      }
      todo := todo - {i};
    }
  }
}
