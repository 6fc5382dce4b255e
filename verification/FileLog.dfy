/** The plain byte log that a file stands for, and why loading only the incomplete parts before a
    write is enough to keep it. */
module FileLog {
  import opened Basics
  import opened RingArith
  import opened FileLayout
  import opened FileParts

  /** The log after writing `data` at `offset`. */
  function Overlay(log: seq<byte>, offset: nat, data: seq<byte>): (r: seq<byte>)
    requires offset <= |log|
    ensures |r| == Max(|log|, offset + |data|)
    ensures forall o :: offset <= o < offset + |data| ==> r[o] == data[o - offset]
    ensures forall o :: 0 <= o < |r| && !(offset <= o < offset + |data|) ==> r[o] == log[o]
  {
    log[..offset] + data + (if offset + |data| < |log| then log[offset + |data|..] else [])
  }

  /** Byte j of part i is b, in the cache if the part is cached and in the database otherwise. */
  ghost predicate Stored(c: map<nat, Row>, rows: map<nat, seq<byte>>, i: nat, j: nat, b: byte) {
    if i in c then RowHas(c, i, j, b) else i in rows && j < |rows[i]| && rows[i][j] == b
  }

  predicate Live(opts: Opts, size: nat, o: int) {
    DataStart(opts, size) <= o < size
  }

  /** Every byte the file still has is stored where readAt looks for it. */
  ghost predicate Holds(opts: Opts, c: map<nat, Row>, rows: map<nat, seq<byte>>, log: seq<byte>)
    requires ValidOpts(opts)
  {
    forall o: nat {:trigger Part(opts, o)} :: Live(opts, |log|, o) ==>
      Stored(c, rows, Part(opts, o), OffInPart(o), log[o])
  }

  // ---------------------------------------------------------------- computePartMap

  /** How many bytes of segment `seg` a write of [start, end) covers, as computePartMap counts them. */
  function SegSize(start: nat, end: int, seg: nat): int {
    var s := SegStart(seg);
    (if s < end < s + P then end - s else P) - (if s < start < s + P then start - s else 0)
  }

  predicate Visited(start: nat, end: int, seg: nat) {
    Seg(start) <= seg && SegStart(seg) < end
  }

  /** A visited segment whose part is not visited again on a later turn of the ring. */
  predicate LastVisit(opts: Opts, start: nat, end: int, seg: nat)
    requires ValidOpts(opts)
  {
    Visited(start, end, seg) && (opts.circular ==> end <= SegStart(seg) + opts.maxSize)
  }

  /** m maps each visited part to the count of its last visit. */
  ghost predicate IsPartMap(opts: Opts, start: nat, end: int, m: map<nat, int>)
    requires ValidOpts(opts)
  {
    && (forall i :: i in m ==>
        exists seg: nat {:trigger PartOfSeg(opts, seg)} ::
          LastVisit(opts, start, end, seg) && PartOfSeg(opts, seg) == i && m[i] == SegSize(start, end, seg))
    && (forall seg: nat {:trigger PartOfSeg(opts, seg)} :: Visited(start, end, seg) ==> PartOfSeg(opts, seg) in m)
  }

  /** The parts that must be in the cache before a write: those counted incomplete that have a row. */
  ghost predicate IncompleteLoaded(c: map<nat, Row>, rows: map<nat, seq<byte>>, m: map<nat, int>) {
    forall i :: i in m && m[i] != P ==> i in c || i !in rows
  }

  /** A part counted complete is wholly inside the last turn of the ring that the write covers. */
  lemma {:induction false} CompletePart(opts: Opts, start: nat, end: int, m: map<nat, int>, i: nat) returns (seg: nat)
    requires ValidOpts(opts) && IsPartMap(opts, start, end, m)
    requires start <= end && i in m && m[i] == P
    ensures PartOfSeg(opts, seg) == i
    ensures start <= SegStart(seg) && SegStart(seg) + P <= end
    ensures opts.circular ==> end - opts.maxSize <= SegStart(seg)
  {
    seg :| LastVisit(opts, start, end, seg) && PartOfSeg(opts, seg) == i && m[i] == SegSize(start, end, seg);
    SegFacts(start);
    SegOrder(Seg(start), seg);
  }

  // ---------------------------------------------------------------- keeping the log

  /** A byte of the new log outside the written range is a byte the old log still had. */
  ghost predicate Survives(opts: Opts, log: seq<byte>, log': seq<byte>, offset: nat, len: nat) {
    forall o {:trigger Live(opts, |log'|, o)} :: Live(opts, |log'|, o) && !(offset <= o < offset + len) ==>
      Live(opts, |log|, o) && log'[o] == log[o]
  }

  /** A byte that survives the write in a part the write touches is in the cache. */
  ghost predicate SharersCached(opts: Opts, c: map<nat, Row>, size': nat, offset: nat, len: nat)
    requires ValidOpts(opts)
  {
    forall o: nat {:trigger Part(opts, o)} ::
      Live(opts, size', o) && !(offset <= o < offset + len) && Touches(opts, offset, len, Part(opts, o)) ==>
        Part(opts, o) in c
  }

  /** A byte outside the written range, less than a turn of the ring away, stays stored if its part was cached
      or is not touched. */
  lemma {:induction false} StaysStored(opts: Opts, c: map<nat, Row>, rows: map<nat, seq<byte>>, offset: nat,
                                       data: seq<byte>,
                                       o: nat, b: byte)
    requires ValidOpts(opts) && RowsOk(c)
    requires opts.circular ==> |data| <= opts.maxSize
    requires !(offset <= o < offset + |data|)
    requires opts.circular ==> offset + |data| <= o + opts.maxSize && o < offset + opts.maxSize
    requires Stored(c, rows, Part(opts, o), OffInPart(o), b)
    requires Touches(opts, offset, |data|, Part(opts, o)) ==> Part(opts, o) in c
    ensures Stored(WriteParts(opts, c, offset, data), rows, Part(opts, o), OffInPart(o), b)
  {
    WritePartsEffect(opts, c, offset, data);
    NotHit(opts, offset, |data|, o);
  }

  lemma {:induction false} NotHit(opts: Opts, offset: nat, len: nat, o: nat)
    requires ValidOpts(opts)
    requires !(offset <= o < offset + len)
    requires opts.circular ==> offset + len <= o + opts.maxSize && o < offset + opts.maxSize
    ensures !Hits(opts, offset, len, Part(opts, o), OffInPart(o))
  {
    if Hits(opts, offset, len, Part(opts, o), OffInPart(o)) {
      var o': nat :| offset <= o' < offset + len && Part(opts, o') == Part(opts, o) && OffInPart(o') == OffInPart(o);
      SamePlace(opts, o, o');
    }
  }

  /** Writing `data` at `offset` turns a cache that holds `log` into one that holds `log'`. */
  lemma {:induction false} WriteHolds(opts: Opts, c: map<nat, Row>, rows: map<nat, seq<byte>>, log: seq<byte>,
                                      offset: nat, data: seq<byte>, log': seq<byte>)
    requires ValidOpts(opts) && RowsOk(c) && Holds(opts, c, rows, log)
    requires DataStart(opts, |log'|) <= offset <= offset + |data| <= |log'|
    requires log'[offset..offset + |data|] == data
    requires Survives(opts, log, log', offset, |data|)
    requires SharersCached(opts, c, |log'|, offset, |data|)
    ensures Holds(opts, WriteParts(opts, c, offset, data), rows, log')
  {
    hide PartsGrow, RestKept, WriteParts;
    WritePartsEffect(opts, c, offset, data);
    forall o: nat | Live(opts, |log'|, o)
      ensures Stored(WriteParts(opts, c, offset, data), rows, Part(opts, o), OffInPart(o), log'[o])
    {
      if offset <= o < offset + |data| {
        assert log'[offset..offset + |data|][o - offset] == log'[o];
      } else {
        StaysStored(opts, c, rows, offset, data, o, log'[o]);
      }
    }
  }

  /** How many bytes writeAt drops from the front of a write to a circular file. */
  function Clipped(opts: Opts, size: nat, offset: nat, len: nat): (t: nat)
    requires ValidOpts(opts)
    ensures t <= Max(len, DataStart(opts, size) - offset)
    ensures DataStart(opts, size) < offset + len ==> t <= len
  {
    if !opts.circular then 0
    else
      var t1 := Max(0, DataStart(opts, size) - offset);
      t1 + Max(0, (len - t1) - opts.maxSize)
  }

  /** A stored byte outside the last turn of the ring that [start, end) covers, but less than a turn
      away from it, is in no part counted complete. */
  lemma {:induction false} NotInCompletePart(opts: Opts, start: nat, end: nat, m: map<nat, int>, o: nat)
    requires ValidOpts(opts) && IsPartMap(opts, start, end, m) && start <= end
    requires o < start || end <= o
    requires opts.circular ==> end <= o + opts.maxSize && o < start + opts.maxSize
    ensures Part(opts, o) in m ==> m[Part(opts, o)] != P
  {
    if Part(opts, o) in m && m[Part(opts, o)] == P {
      var seg := CompletePart(opts, start, end, m, Part(opts, o));
      var o' := SegStart(seg) + OffInPart(o);
      SegUnique(o', seg);
      SamePlace(opts, o, o');
    }
  }

  lemma {:induction false} LoadedSharers(opts: Opts, c: map<nat, Row>, rows: map<nat, seq<byte>>, log: seq<byte>,
                                         offset: nat, len: nat, m: map<nat, int>)
    requires ValidOpts(opts) && Holds(opts, c, rows, log)
    requires DataStart(opts, |log|) <= offset <= |log|
    requires IsPartMap(opts, offset, offset + len, m) && IncompleteLoaded(c, rows, m)
    ensures var t := Clipped(opts, |log|, offset, len);
      SharersCached(opts, c, Max(|log|, offset + len), offset + t, len - t)
  {
    hide IsPartMap;
    var t := Clipped(opts, |log|, offset, len);
    forall o: nat | Live(opts, Max(|log|, offset + len), o) && !(offset + t <= o < offset + len)
                    && Touches(opts, offset + t, len - t, Part(opts, o))
      ensures Part(opts, o) in c
    {
      TouchedIsMapped(opts, offset, t, len, m, Part(opts, o));
      assert Stored(c, rows, Part(opts, o), OffInPart(o), log[o]);
      NotInCompletePart(opts, offset, offset + len, m, o);
    }
  }

  /** Loading the parts counted incomplete is enough for a write that starts in the window. */
  lemma {:induction false} LoadedIsEnough(opts: Opts, c: map<nat, Row>, rows: map<nat, seq<byte>>, log: seq<byte>,
                                          offset: nat, data: seq<byte>, m: map<nat, int>)
    requires ValidOpts(opts) && RowsOk(c) && Holds(opts, c, rows, log)
    requires DataStart(opts, |log|) <= offset <= |log|
    requires IsPartMap(opts, offset, offset + |data|, m) && IncompleteLoaded(c, rows, m)
    ensures var t := Clipped(opts, |log|, offset, |data|);
      Holds(opts, WriteParts(opts, c, offset + t, data[t..]), rows, Overlay(log, offset, data))
  {
    hide Holds, IsPartMap, IncompleteLoaded, SharersCached, WriteParts;
    var t := Clipped(opts, |log|, offset, |data|);
    var log' := Overlay(log, offset, data);
    LoadedSharers(opts, c, rows, log, offset, |data|, m);
    assert log'[offset + t..offset + |data|] == data[t..];
    WriteHolds(opts, c, rows, log, offset + t, data[t..], log');
  }

  lemma {:induction false} TouchedIsMapped(opts: Opts, offset: nat, t: nat, len: nat, m: map<nat, int>, i: nat)
    requires ValidOpts(opts) && IsPartMap(opts, offset, offset + len, m) && t <= len
    requires Touches(opts, offset + t, len - t, i)
    ensures i in m
  {
    var o: nat :| offset + t <= o < offset + len && Part(opts, o) == i;
    SegFacts(offset);
    SegFacts(o);
    SegOrder(Seg(o), Seg(offset));
    assert Visited(offset, offset + len, Seg(o));
    assert PartOfSeg(opts, Seg(o)) == i;
  }

  // ---------------------------------------------------------------- writes that start before the window

  /** A write to a circular file that starts before its window and reaches into it. */
  predicate Straddles(opts: Opts, size: nat, offset: nat, len: nat) {
    offset < DataStart(opts, size) < offset + len
  }

  /** The case in which a straddling write destroys bytes it does not cover: the part holding the start of
      the window is counted complete and is not cached, but only its tail is written. */
  predicate LosesHead(opts: Opts, size: nat, cached: set<nat>, offset: nat, len: nat)
    requires ValidOpts(opts)
  {
    var start := DataStart(opts, size);
    var s := SegStart(Seg(start));
    && Straddles(opts, size, offset, len)
    && offset <= s < start
    && s + P <= offset + len <= s + opts.maxSize
    && PartOfSeg(opts, Seg(start)) !in cached
  }

  /** The first of the bytes destroyed in that case; they run to the end of the file. */
  function LostFrom(opts: Opts, size: nat): int {
    SegStart(Seg(DataStart(opts, size))) + opts.maxSize
  }

  function ZeroFrom(log: seq<byte>, z: int): (r: seq<byte>)
    ensures |r| == |log|
    ensures forall o {:trigger r[o]} :: 0 <= o < |log| ==> r[o] == if z <= o then 0 else log[o]
  {
    seq(|log|, o requires 0 <= o < |log| => if z <= o then 0 else log[o])
  }

  /** The log that WriteAt leaves, given which parts were cached before it. */
  function LogAfterWrite(opts: Opts, log: seq<byte>, cached: set<nat>, offset: nat, data: seq<byte>): (r: seq<byte>)
    requires ValidOpts(opts) && offset <= |log|
    ensures |r| == Max(|log|, offset + |data|)
  {
    var r := Overlay(log, offset, data);
    if LosesHead(opts, |log|, cached, offset, |data|) then ZeroFrom(r, LostFrom(opts, |log|)) else r
  }

  /** WriteAt writes the plain log exactly when it is not in the lossy case or the bytes lost are zeros. */
  lemma {:induction false} WriteIsPlainIff(opts: Opts, log: seq<byte>, cached: set<nat>, offset: nat, data: seq<byte>)
    requires ValidOpts(opts) && offset <= |log|
    ensures LogAfterWrite(opts, log, cached, offset, data) == Overlay(log, offset, data) <==>
      (!LosesHead(opts, |log|, cached, offset, |data|) ||
       forall o {:trigger log[o]} :: LostFrom(opts, |log|) <= o < |log| ==> log[o] == 0)
    ensures LosesHead(opts, |log|, cached, offset, |data|) ==>
      offset + |data| <= LostFrom(opts, |log|) < |log| && Live(opts, |log|, LostFrom(opts, |log|))
  {
    var plain, r := Overlay(log, offset, data), LogAfterWrite(opts, log, cached, offset, data);
    if LosesHead(opts, |log|, cached, offset, |data|) {
      SegFacts(DataStart(opts, |log|));
      forall o | LostFrom(opts, |log|) <= o < |log|
        ensures r[o] == 0 && plain[o] == log[o]
      {
      }
      if r == plain {
        forall o | LostFrom(opts, |log|) <= o < |log|
          ensures log[o] == 0
        {
          assert r[o] == plain[o];
        }
      }
    }
  }

  /** A concrete loss: a ring of two parts that has taken one byte more than it holds; writing one whole part at
      offset 0 while nothing is cached destroys the last byte of the file. */
  lemma {:induction false} StraddleLosesLastByte(log: seq<byte>, data: seq<byte>)
    requires P >= 2
    requires |log| == 2 * P + 1 && log[2 * P] != 0 && |data| == P
    ensures var opts := Opts(true, 2 * P, false, 0);
      ValidOpts(opts) && Live(opts, |log|, 2 * P) &&
      LogAfterWrite(opts, log, {}, 0, data)[2 * P] != Overlay(log, 0, data)[2 * P]
  {
    var opts := Opts(true, 2 * P, false, 0);
    assert Mul(2, P) == 2 * P by { assert Mul(1, P) == Mul(0, P) + P; }
    DivUnique(2 * P, 2, P);
    SegUnique(1, 0);
    MaxPartPositive(opts);
  }

  /** A surviving byte in a part that a straddling write touches without having loaded it: the part is the one
      that holds the start of the window. */
  lemma {:induction false} UnloadedIsHead(opts: Opts, c: map<nat, Row>, rows: map<nat, seq<byte>>, size: nat,
                                          offset: nat, len: nat,
                                          m: map<nat, int>, o: nat)
    requires ValidOpts(opts)
    requires IsPartMap(opts, offset, offset + len, m) && IncompleteLoaded(c, rows, m)
    requires Straddles(opts, size, offset, len) && offset + len <= o < size
    requires var start := DataStart(opts, size); Touches(opts, start, offset + len - start, Part(opts, o))
    requires Part(opts, o) !in c && Part(opts, o) in rows
    ensures LosesHead(opts, size, c.Keys, offset, len) && LostFrom(opts, size) <= o
  {
    var start, end := DataStart(opts, size), offset + len;
    TouchedIsMapped(opts, offset, start - offset, len, m, Part(opts, o));
    var seg := CompletePart(opts, offset, end, m, Part(opts, o));
    var o': nat :| start <= o' < end && Part(opts, o') == Part(opts, o);
    HeadSegment(opts, size, end, seg, o', o);
  }

  lemma {:induction false} HeadSegment(opts: Opts, size: nat, end: nat, seg: nat, o': nat, o: nat)
    requires ValidOpts(opts) && DataStart(opts, size) > 0
    requires DataStart(opts, size) <= o' < end <= o < size
    requires PartOfSeg(opts, seg) == Part(opts, o') == Part(opts, o)
    requires SegStart(seg) + P <= end <= SegStart(seg) + opts.maxSize
    ensures seg == Seg(DataStart(opts, size)) && SegStart(seg) < DataStart(opts, size)
    ensures SegStart(seg) + opts.maxSize <= o
  {
    var start := DataStart(opts, size);
    SegFacts(o);
    SegFacts(o');
    if start <= SegStart(seg) {
      var twin := SegStart(seg) + OffInPart(o);
      SegUnique(twin, seg);
      SamePlace(opts, twin, o);
    }
    SameRingPart(opts, seg, Seg(o'), end);
    SegUnique(start, seg);
    SegOrder(Seg(o), seg);
    SameRingPartNext(opts, seg, Seg(o), end);
  }

  /** A later segment with the same part starts no earlier than one turn later. */
  lemma {:induction false} SameRingPart(opts: Opts, seg: nat, seg': nat, end: nat)
    requires ValidOpts(opts) && opts.circular
    requires PartOfSeg(opts, seg) == PartOfSeg(opts, seg')
    requires end <= SegStart(seg) + opts.maxSize
    requires SegStart(seg') < end && SegStart(seg) < SegStart(seg') + P
    ensures seg' == seg
  {
    SegOrder(seg', seg);
    if seg < seg' {
      SameRingPartNext(opts, seg, seg', end);
    }
  }

  lemma {:induction false} SameRingPartNext(opts: Opts, seg: nat, seg': nat, end: nat)
    requires ValidOpts(opts) && opts.circular
    requires PartOfSeg(opts, seg) == PartOfSeg(opts, seg') && seg < seg'
    ensures SegStart(seg) + opts.maxSize <= SegStart(seg')
  {
    MaxPartPositive(opts);
    if seg' < seg + MaxPart(opts) {
      PartOfSegDistinct(opts, seg, seg');
      assert false;
    }
    SegOrder(seg, MaxPart(opts));
    SegOrder(seg + MaxPart(opts), seg');
  }

  /** The lost bytes live in the part that holds the start of the window. */
  lemma {:induction false} LostPart(opts: Opts, size: nat, o: nat)
    requires ValidOpts(opts) && DataStart(opts, size) > 0
    requires LostFrom(opts, size) <= o < size
    ensures Part(opts, o) == PartOfSeg(opts, Seg(DataStart(opts, size)))
  {
    var start := DataStart(opts, size);
    MaxPartPositive(opts);
    SegFacts(start);
    SegOrder(Seg(start), MaxPart(opts));
    SegUnique(o, Seg(start) + MaxPart(opts));
    assert Mod(Seg(start) + MaxPart(opts), MaxPart(opts)) == Mod(Seg(start), MaxPart(opts));
  }

  /** The tail of the unloaded part is written into a fresh buffer, so its head reads as zeros. */
  lemma {:induction false} LostIsZero(opts: Opts, c: map<nat, Row>, rows: map<nat, seq<byte>>, size: nat, offset: nat,
                                      data: seq<byte>, o: nat)
    requires ValidOpts(opts) && RowsOk(c)
    requires LosesHead(opts, size, c.Keys, offset, |data|) && LostFrom(opts, size) <= o < size
    ensures var start := DataStart(opts, size);
      Stored(WriteParts(opts, c, start, data[start - offset..]), rows, Part(opts, o), OffInPart(o), 0)
  {
    hide WriteParts, RowsOk, PartsGrow, AllWritten, RestKept, LosesHead, Part, OffInPart, Seg, SegStart, LostFrom, Hits;
    var start := DataStart(opts, size);
    var last := LostPlace(opts, size, c.Keys, offset, |data|, o);
    var rest := data[start - offset..];
    WritePartsEffect(opts, c, start, rest);
    NotHit(opts, start, |rest|, o);
    FreshIsZero(opts, c, WriteParts(opts, c, start, rest), start, rest, o, last);
  }

  lemma LostPlace(opts: Opts, size: nat, cached: set<nat>, offset: nat, len: nat, o: nat) returns (last: nat)
    requires ValidOpts(opts) && LosesHead(opts, size, cached, offset, len) && LostFrom(opts, size) <= o < size
    ensures var start := DataStart(opts, size);
      && opts.circular && offset <= start <= last < offset + len <= o < start + opts.maxSize
      && offset + len <= o + opts.maxSize && offset + len - start <= opts.maxSize
    ensures Part(opts, o) == Part(opts, last) && Part(opts, o) !in cached
    ensures OffInPart(o) <= OffInPart(last) && OffInPart(o) < P
  {
    var start := DataStart(opts, size);
    last := SegStart(Seg(start)) + P - 1;
    LostPart(opts, size, o);
    SegFacts(start);
    SegFacts(o);
    SegUnique(last, Seg(start));
  }

  /** A place before a written one, in a part that was not cached, holds a zero. */
  lemma FreshIsZero(opts: Opts, c: map<nat, Row>, r: map<nat, Row>, offset: nat, data: seq<byte>, o: nat, last: nat)
    requires ValidOpts(opts) && RowsOk(c) && RowsOk(r) && AllWritten(opts, r, offset, data) &&
      RestKept(opts, c, r, offset, |data|)
    requires offset <= last < offset + |data| && Part(opts, o) == Part(opts, last) && Part(opts, o) !in c
    requires OffInPart(o) <= OffInPart(last) && OffInPart(o) < P &&
      !Hits(opts, offset, |data|, Part(opts, o), OffInPart(o))
    ensures RowHas(r, Part(opts, o), OffInPart(o), 0)
  {
    assert RowHas(r, Part(opts, last), OffInPart(last), data[last - offset]);
    assert RowOk(r[Part(opts, o)]);
  }

  lemma {:induction false} StraddleByte(opts: Opts, c: map<nat, Row>, rows: map<nat, seq<byte>>, log: seq<byte>,
                                        offset: nat, data: seq<byte>, m: map<nat, int>, o: nat)
    requires ValidOpts(opts) && RowsOk(c) && Holds(opts, c, rows, log)
    requires Straddles(opts, |log|, offset, |data|)
    requires IsPartMap(opts, offset, offset + |data|, m) && IncompleteLoaded(c, rows, m)
    requires offset + |data| <= o < |log|
    ensures var start := DataStart(opts, |log|);
      Stored(WriteParts(opts, c, start, data[start - offset..]), rows, Part(opts, o), OffInPart(o),
             LogAfterWrite(opts, log, c.Keys, offset, data)[o])
  {
    hide WriteParts, IsPartMap;
    var start, end := DataStart(opts, |log|), offset + |data|;
    var rest := data[start - offset..];
    assert Stored(c, rows, Part(opts, o), OffInPart(o), log[o]);
    assert Part(opts, start) == PartOfSeg(opts, Seg(start));
    if LosesHead(opts, |log|, c.Keys, offset, |data|) && LostFrom(opts, |log|) <= o {
      LostIsZero(opts, c, rows, |log|, offset, data, o);
    } else {
      if Touches(opts, start, |rest|, Part(opts, o)) && Part(opts, o) !in c {
        UnloadedIsHead(opts, c, rows, |log|, offset, |data|, m, o);
        assert false;
      }
      StaysStored(opts, c, rows, start, rest, o, log[o]);
    }
  }

  /** A straddling write, in the lossy case and otherwise. */
  lemma {:induction false} StraddleHolds(opts: Opts, c: map<nat, Row>, rows: map<nat, seq<byte>>, log: seq<byte>,
                                         offset: nat, data: seq<byte>, m: map<nat, int>)
    requires ValidOpts(opts) && RowsOk(c) && Holds(opts, c, rows, log)
    requires Straddles(opts, |log|, offset, |data|)
    requires IsPartMap(opts, offset, offset + |data|, m) && IncompleteLoaded(c, rows, m)
    ensures var t := Clipped(opts, |log|, offset, |data|);
      Holds(opts, WriteParts(opts, c, offset + t, data[t..]), rows, LogAfterWrite(opts, log, c.Keys, offset, data))
  {
    hide WriteParts, IsPartMap, PartsGrow, RestKept;
    var t := Clipped(opts, |log|, offset, |data|);
    var log' := LogAfterWrite(opts, log, c.Keys, offset, data);
    WritePartsEffect(opts, c, offset + t, data[t..]);
    forall o: nat | Live(opts, |log'|, o)
      ensures Stored(WriteParts(opts, c, offset + t, data[t..]), rows, Part(opts, o), OffInPart(o), log'[o])
    {
      if o < offset + |data| {
        SegFacts(DataStart(opts, |log|));
        assert RowHas(WriteParts(opts, c, offset + t, data[t..]), Part(opts, o), OffInPart(o),
          data[t..][o - (offset + t)]);
      } else {
        StraddleByte(opts, c, rows, log, offset, data, m, o);
      }
    }
  }

  // ---------------------------------------------------------------- writeAt as a whole

  /** The cached parts after writeAt (without replace): nothing happens to a write that ends before the window. */
  function CacheAfterWrite(opts: Opts, c: map<nat, Row>, size: nat, offset: nat, data: seq<byte>): map<nat, Row>
    requires ValidOpts(opts) && RowsOk(c)
  {
    if opts.circular && offset + |data| <= size - opts.maxSize then c
    else
      var t := Clipped(opts, size, offset, |data|);
      WriteParts(opts, c, offset + t, data[t..])
  }

  /** Every positioned write and every append, whatever its length and wherever it starts. */
  lemma {:induction false} WriteAtKeepsLog(opts: Opts, c: map<nat, Row>, rows: map<nat, seq<byte>>, log: seq<byte>,
                                           offset: nat, data: seq<byte>, m: map<nat, int>)
    requires ValidOpts(opts) && RowsOk(c) && Holds(opts, c, rows, log)
    requires offset <= |log|
    requires IsPartMap(opts, offset, offset + |data|, m) && IncompleteLoaded(c, rows, m)
    ensures Holds(opts, CacheAfterWrite(opts, c, |log|, offset, data), rows,
      LogAfterWrite(opts, log, c.Keys, offset, data))
  {
    hide IsPartMap, IncompleteLoaded, WriteParts;
    if offset + |data| <= DataStart(opts, |log|) {
      if !(opts.circular && offset + |data| <= |log| - opts.maxSize) {
        assert Overlay(log, offset, data) == log;
        assert data == [];
        assert WriteParts(opts, c, offset, data[0..]) == c by { WritePartsNothing(opts, c, offset); }
      }
    } else if Straddles(opts, |log|, offset, |data|) {
      StraddleHolds(opts, c, rows, log, offset, data, m);
    } else {
      LoadedIsEnough(opts, c, rows, log, offset, data, m);
    }
  }

  lemma WritePartsNothing(opts: Opts, c: map<nat, Row>, offset: nat)
    requires ValidOpts(opts) && RowsOk(c)
    ensures WriteParts(opts, c, offset, []) == c
  {
  }

  /** A whole-file write holds the new log in the cache alone. */
  lemma {:induction false} ReplaceHolds(opts: Opts, rows: map<nat, seq<byte>>, data: seq<byte>)
    requires ValidOpts(opts)
    ensures Holds(opts, CacheAfterWrite(opts, map[], 0, 0, data), rows, data)
  {
    hide RestKept, PartsGrow, WriteParts;
    var t := Clipped(opts, 0, 0, |data|);
    WritePartsEffect(opts, map[], t, data[t..]);
    forall o: nat | Live(opts, |data|, o)
      ensures Stored(CacheAfterWrite(opts, map[], 0, 0, data), rows, Part(opts, o), OffInPart(o), data[o])
    {
      assert RowHas(WriteParts(opts, map[], t, data[t..]), Part(opts, o), OffInPart(o), data[t..][o - t]);
    }
  }

  /** Buffers copied from rows can stand in for them. */
  lemma {:induction false} LoadHolds(opts: Opts, c: map<nat, Row>, loaded: map<nat, Row>, rows: map<nat, seq<byte>>,
                                     log: seq<byte>)
    requires ValidOpts(opts) && RowsOk(loaded) && Holds(opts, c, rows, log)
    requires loaded.Keys !! c.Keys
    requires forall i :: i in loaded ==>
      i in rows && loaded[i].used == |rows[i]| && loaded[i].bytes[..|rows[i]|] == rows[i]
    ensures Holds(opts, c + loaded, rows, log)
  {
    forall o: nat | Live(opts, |log|, o)
      ensures Stored(c + loaded, rows, Part(opts, o), OffInPart(o), log[o])
    {
      var i, j := Part(opts, o), OffInPart(o);
      assert Stored(c, rows, i, j, log[o]);
      if i in loaded {
        assert loaded[i].bytes[..|rows[i]|][j] == rows[i][j];
      }
    }
  }

  /** The part that the lossy case is about is counted complete, so loading does not rescue it. */
  lemma {:induction false} HeadIsComplete(opts: Opts, size: nat, cached: set<nat>, offset: nat, len: nat,
                                          m: map<nat, int>)
    requires ValidOpts(opts) && IsPartMap(opts, offset, offset + len, m)
    requires LosesHead(opts, size, cached, offset, len)
    ensures PartOfSeg(opts, Seg(DataStart(opts, size))) in m
    ensures m[PartOfSeg(opts, Seg(DataStart(opts, size)))] == P
  {
    var n, end := Seg(DataStart(opts, size)), offset + len;
    SegFacts(offset);
    SegOrder(n, Seg(offset));
    assert Visited(offset, end, n);
    var seg: nat :| LastVisit(opts, offset, end, seg) && PartOfSeg(opts, seg) == PartOfSeg(opts, n)
                    && m[PartOfSeg(opts, n)] == SegSize(offset, end, seg);
    if n < seg {
      SameRingPartNext(opts, n, seg, end);
    } else if seg < n {
      SameRingPartNext(opts, seg, n, end);
    }
  }

  /** The newline that AppendIJson adds without loading: the part it shares is the one just written. */
  lemma {:induction false} NextByteHolds(opts: Opts, c: map<nat, Row>, rows: map<nat, seq<byte>>, log: seq<byte>,
                                         b: byte)
    requires ValidOpts(opts) && !opts.circular && RowsOk(c) && Holds(opts, c, rows, log)
    requires |log| > 0 && Part(opts, |log| - 1) in c
    ensures Holds(opts, CacheAfterWrite(opts, c, |log|, |log|, [b]), rows, log + [b])
  {
    hide Holds, Stored, Touches, WriteParts;
    forall o: nat | Live(opts, |log| + 1, o) && !(|log| <= o < |log| + 1) && Touches(opts, |log|, 1, Part(opts, o))
      ensures Part(opts, o) in c
    {
      NextPartCached(opts, c, |log|, o);
    }
    NextByteSurvives(opts, log, b);
    WriteHolds(opts, c, rows, log, |log|, [b], log + [b]);
    assert [b][0..] == [b];
  }

  lemma NextPartCached(opts: Opts, c: map<nat, Row>, len: nat, o: nat)
    requires ValidOpts(opts) && !opts.circular && len > 0 && Part(opts, len - 1) in c
    requires Live(opts, len + 1, o) && o < len && Touches(opts, len, 1, Part(opts, o))
    ensures Part(opts, o) in c
  {
    SegFacts(o);
    SegFacts(len);
    SegUnique(len - 1, Seg(o));
  }

  lemma NextByteSurvives(opts: Opts, log: seq<byte>, b: byte)
    requires ValidOpts(opts) && !opts.circular
    ensures Survives(opts, log, log + [b], |log|, 1)
  {
  }

  /** The last byte of a write is in a cached part. */
  lemma {:induction false} LastByteCached(opts: Opts, c: map<nat, Row>, size: nat, data: seq<byte>)
    requires ValidOpts(opts) && RowsOk(c) && data != [] && !opts.circular
    ensures Part(opts, size + |data| - 1) in CacheAfterWrite(opts, c, size, size, data)
  {
    hide WriteParts, AllWritten, RestKept, RowsOk;
    WritePartsEffect(opts, c, size, data[0..]);
    assert Touches(opts, size, |data|, Part(opts, size + |data| - 1));
  }

  /** Appending is writing at the end, and never lossy. */
  lemma {:induction false} AppendLog(opts: Opts, log: seq<byte>, cached: set<nat>, data: seq<byte>)
    requires ValidOpts(opts)
    ensures LogAfterWrite(opts, log, cached, |log|, data) == log + data
  {
  }
}
