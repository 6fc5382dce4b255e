/** The contents of parts as values: what writeAt does to the cached parts, and when the cached
    parts together with the stored rows still hold the log of a file. */
module FileParts {
  import opened Basics
  import opened FileLayout

  /** A cached part: the whole P-byte buffer, of which the first `used` bytes are data. */
  datatype Row = Row(bytes: seq<byte>, used: nat)

  predicate RowOk(r: Row) {
    |r.bytes| == P && r.used <= P
  }

  ghost predicate RowsOk(c: map<nat, Row>) {
    forall i :: i in c ==> RowOk(c[i])
  }

  function FreshRow(): (r: Row)
    ensures RowOk(r)
  {
    Row(seq(P, _ => 0), 0)
  }

  function RowOrFresh(c: map<nat, Row>, i: nat): Row {
    if i in c then c[i] else FreshRow()
  }

  /** writeToPart, for data that fits in the part. */
  function WriteRow(r: Row, off: nat, data: seq<byte>): (r': Row)
    requires RowOk(r) && off + |data| <= P
    ensures RowOk(r')
  {
    Row(r.bytes[..off] + data + r.bytes[off + |data|..], Max(r.used, off + |data|))
  }

  /** How much of the remaining data the loop of writeAt puts into the part at `offset`. */
  function ChunkLen(offset: nat, len: nat): (n: nat)
    ensures n <= len && OffInPart(offset) + n <= P
    ensures len > 0 ==> n > 0
  {
    Min(P - OffInPart(offset), len)
  }

  /** The cached parts after the first chunk of a write. */
  function FirstChunk(opts: Opts, c: map<nat, Row>, offset: nat, data: seq<byte>): (c1: map<nat, Row>)
    requires ValidOpts(opts) && RowsOk(c) && data != []
    ensures RowsOk(c1)
  {
    var i, n := Part(opts, offset), ChunkLen(offset, |data|);
    c[i := WriteRow(RowOrFresh(c, i), OffInPart(offset), data[..n])]
  }

  /** The loop of writeAt. */
  function WriteParts(opts: Opts, c: map<nat, Row>, offset: nat, data: seq<byte>): (r: map<nat, Row>)
    requires ValidOpts(opts) && RowsOk(c)
    ensures RowsOk(r)
    decreases |data|
  {
    if data == [] then c
    else
      var n := ChunkLen(offset, |data|);
      WriteParts(opts, FirstChunk(opts, c, offset, data), offset + n, data[n..])
  }

  /** A write of `len` bytes at `offset` stores some byte at index j of part i. */
  ghost predicate Hits(opts: Opts, offset: nat, len: nat, i: nat, j: nat)
    requires ValidOpts(opts)
  {
    exists o: nat {:trigger Part(opts, o)} :: offset <= o < offset + len && Part(opts, o) == i && OffInPart(o) == j
  }

  ghost predicate Touches(opts: Opts, offset: nat, len: nat, i: nat)
    requires ValidOpts(opts)
  {
    exists o: nat {:trigger Part(opts, o)} :: offset <= o < offset + len && Part(opts, o) == i
  }

  ghost predicate RowHas(c: map<nat, Row>, i: nat, j: nat, b: byte)
  {
    i in c && j < c[i].used && j < |c[i].bytes| && c[i].bytes[j] == b
  }

  /** The first chunk of a write covers exactly the offsets of its segment. */
  lemma {:induction false} ChunkPlaces(opts: Opts, offset: nat, len: nat, o: nat)
    requires ValidOpts(opts) && len > 0
    requires offset <= o < offset + ChunkLen(offset, len)
    ensures Part(opts, o) == Part(opts, offset) && OffInPart(o) == OffInPart(offset) + (o - offset)
  {
    SegFacts(offset);
    SegUnique(o, Seg(offset));
  }

  // ---------------------------------------------------------------- the effect of a write on every byte

  /** The written bytes are all there. */
  ghost predicate AllWritten(opts: Opts, r: map<nat, Row>, offset: nat, data: seq<byte>)
    requires ValidOpts(opts)
  {
    forall o: nat {:trigger Part(opts, o)} :: offset <= o < offset + |data| ==>
      RowHas(r, Part(opts, o), OffInPart(o), data[o - offset])
  }

  /** The other bytes of the cached parts are as before, or zero in a part that was not cached. */
  ghost predicate RestKept(opts: Opts, c: map<nat, Row>, r: map<nat, Row>, offset: nat, len: nat)
    requires ValidOpts(opts) && RowsOk(c) && RowsOk(r)
  {
    forall i, j :: i in r && 0 <= j < P && !Hits(opts, offset, len, i, j) ==> r[i].bytes[j] == RowOrFresh(c, i).bytes[j]
  }

  /** Exactly the touched parts have become cached, and no part has become shorter. */
  ghost predicate PartsGrow(opts: Opts, c: map<nat, Row>, r: map<nat, Row>, offset: nat, len: nat)
    requires ValidOpts(opts)
  {
    && (forall i :: i in r <==> i in c || Touches(opts, offset, len, i))
    && (forall i :: i in c && i in r ==> c[i].used <= r[i].used)
  }

  lemma {:induction false} FirstChunkByte(opts: Opts, c: map<nat, Row>, offset: nat, data: seq<byte>, o: nat)
    requires ValidOpts(opts) && RowsOk(c) && data != []
    requires offset <= o < offset + ChunkLen(offset, |data|)
    ensures RowHas(FirstChunk(opts, c, offset, data), Part(opts, o), OffInPart(o), data[o - offset])
  {
    ChunkPlaces(opts, offset, |data|, o);
  }

  lemma {:induction false} AllWrittenStep(opts: Opts, c: map<nat, Row>, offset: nat, data: seq<byte>, r: map<nat, Row>)
    requires ValidOpts(opts) && RowsOk(c) && data != [] && RowsOk(r)
    requires opts.circular ==> |data| <= opts.maxSize
    requires
      var n := ChunkLen(offset, |data|);
      var c1 := FirstChunk(opts, c, offset, data);
      AllWritten(opts, r, offset + n, data[n..]) && RestKept(opts, c1, r, offset + n, |data| - n)
      && PartsGrow(opts, c1, r, offset + n, |data| - n)
    ensures AllWritten(opts, r, offset, data)
  {
    var n := ChunkLen(offset, |data|);
    var c1 := FirstChunk(opts, c, offset, data);
    forall o: nat | offset <= o < offset + |data|
      ensures RowHas(r, Part(opts, o), OffInPart(o), data[o - offset])
    {
      if o < offset + n {
        FirstChunkByte(opts, c, offset, data, o);
        if Hits(opts, offset + n, |data| - n, Part(opts, o), OffInPart(o)) {
          var o': nat :| offset + n <= o' < offset + |data| && Part(opts, o') == Part(opts, o) &&
            OffInPart(o') == OffInPart(o);
          SamePlace(opts, o, o');
        }
      } else {
        assert data[n..][o - (offset + n)] == data[o - offset];
      }
    }
  }

  lemma {:induction false} RestKeptStep(opts: Opts, c: map<nat, Row>, offset: nat, data: seq<byte>, r: map<nat, Row>)
    requires ValidOpts(opts) && RowsOk(c) && data != [] && RowsOk(r)
    requires
      var n := ChunkLen(offset, |data|);
      RestKept(opts, FirstChunk(opts, c, offset, data), r, offset + n, |data| - n)
    ensures RestKept(opts, c, r, offset, |data|)
  {
    var n := ChunkLen(offset, |data|);
    var c1 := FirstChunk(opts, c, offset, data);
    forall i, j | i in r && 0 <= j < P && !Hits(opts, offset, |data|, i, j)
      ensures r[i].bytes[j] == RowOrFresh(c, i).bytes[j]
    {
      assert !Hits(opts, offset + n, |data| - n, i, j);
      if i == Part(opts, offset) && OffInPart(offset) <= j < OffInPart(offset) + n {
        ChunkPlaces(opts, offset, |data|, offset + (j - OffInPart(offset)));
        assert Hits(opts, offset, |data|, i, j);
      }
    }
  }

  lemma {:induction false} PartsGrowStep(opts: Opts, c: map<nat, Row>, offset: nat, data: seq<byte>, r: map<nat, Row>)
    requires ValidOpts(opts) && RowsOk(c) && data != []
    requires
      var n := ChunkLen(offset, |data|);
      PartsGrow(opts, FirstChunk(opts, c, offset, data), r, offset + n, |data| - n)
    ensures PartsGrow(opts, c, r, offset, |data|)
  {
    var n := ChunkLen(offset, |data|);
    var c1 := FirstChunk(opts, c, offset, data);
    forall i
      ensures i in r <==> i in c || Touches(opts, offset, |data|, i)
    {
      if Touches(opts, offset, |data|, i) && i !in c1 {
        var o: nat :| offset <= o < offset + |data| && Part(opts, o) == i;
        if o < offset + n {
          ChunkPlaces(opts, offset, |data|, o);
        }
        assert Touches(opts, offset + n, |data| - n, i);
      }
    }
  }

  /** What a write of at most one turn of the ring leaves in the cached parts. */
  ghost predicate WriteEffect(opts: Opts, c: map<nat, Row>, r: map<nat, Row>, offset: nat, data: seq<byte>)
    requires ValidOpts(opts) && RowsOk(c) && RowsOk(r)
  {
    && AllWritten(opts, r, offset, data)
    && RestKept(opts, c, r, offset, |data|)
    && PartsGrow(opts, c, r, offset, |data|)
  }

  lemma {:induction false} WriteEffectStep(opts: Opts, c: map<nat, Row>, offset: nat, data: seq<byte>, r: map<nat, Row>)
    requires ValidOpts(opts) && RowsOk(c) && data != [] && RowsOk(r)
    requires opts.circular ==> |data| <= opts.maxSize
    requires
      var n := ChunkLen(offset, |data|);
      WriteEffect(opts, FirstChunk(opts, c, offset, data), r, offset + n, data[n..])
    ensures WriteEffect(opts, c, r, offset, data)
  {
    AllWrittenStep(opts, c, offset, data, r);
    RestKeptStep(opts, c, offset, data, r);
    PartsGrowStep(opts, c, offset, data, r);
  }

  lemma {:induction false} WriteEffectNothing(opts: Opts, c: map<nat, Row>, offset: nat)
    requires ValidOpts(opts) && RowsOk(c)
    ensures WriteEffect(opts, c, c, offset, [])
  {
  }

  lemma {:induction false} WritePartsEffect(opts: Opts, c: map<nat, Row>, offset: nat, data: seq<byte>)
    requires ValidOpts(opts) && RowsOk(c)
    requires opts.circular ==> |data| <= opts.maxSize
    ensures WriteEffect(opts, c, WriteParts(opts, c, offset, data), offset, data)
    decreases |data|
  {
    hide AllWritten, RestKept, PartsGrow;
    if data == [] {
      WriteEffectNothing(opts, c, offset);
    } else {
      var n := ChunkLen(offset, |data|);
      var c1 := FirstChunk(opts, c, offset, data);
      WritePartsEffect(opts, c1, offset + n, data[n..]);
      WriteEffectStep(opts, c, offset, data, WriteParts(opts, c1, offset + n, data[n..]));
    }
  }
}
