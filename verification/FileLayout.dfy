/** Where the bytes of a stored file live: the arithmetic of parts and of the ring of parts
    that a circular file reuses (blockstore.go: partIdxAtOffset, computePartMap, DataStartIdx). */
module FileLayout {

  import opened RingArith

  type byte = x: int | 0 <= x < 256

  // The part size; the program fixes 64K and its tests override it, so any positive size is allowed.
  const P: pos

  datatype Opts = Opts(circular: bool, maxSize: int, ijson: bool, ijsonBudget: int)

  /** What AppendIJson counts in the metadata of a file: commands and their bytes. */
  datatype Counts = Counts(numCmds: nat, incBytes: nat)

  const NO_COUNTS := Counts(0, 0)

  datatype StarFile = StarFile(opts: Opts, size: nat, counts: Counts)

  /** What MakeFile establishes for the options it stores. */
  predicate ValidOpts(opts: Opts) {
    opts.circular ==> opts.maxSize > 0 && Mod(opts.maxSize, P) == 0 && !opts.ijson
  }

  /** The index of the first byte a file still has. */
  function DataStart(opts: Opts, size: nat): nat {
    if opts.circular && size > opts.maxSize then size - opts.maxSize else 0
  }

  /** The number of the P-byte segment of the log that holds a logical offset. */
  function Seg(offset: nat): nat {
    Div(offset, P)
  }

  function OffInPart(offset: nat): (r: nat)
    ensures r < P
  {
    Mod(offset, P)
  }

  /** The first logical offset of a segment. */
  function SegStart(seg: nat): nat {
    Mul(seg, P)
  }

  function MaxPart(opts: Opts): nat
    requires opts.maxSize >= 0
  {
    Div(opts.maxSize, P)
  }

  lemma {:induction false} MaxPartPositive(opts: Opts)
    requires ValidOpts(opts) && opts.circular
    ensures MaxPart(opts) > 0 && SegStart(MaxPart(opts)) == opts.maxSize
  {
    DivMod(opts.maxSize, P);
  }

  function PartOfSeg(opts: Opts, seg: nat): nat
    requires ValidOpts(opts)
  {
    if opts.circular then
      MaxPartPositive(opts);
      Mod(seg, MaxPart(opts))
    else seg
  }

  /** The part that stores a logical offset. */
  function Part(opts: Opts, offset: nat): nat
    requires ValidOpts(opts)
  {
    PartOfSeg(opts, Seg(offset))
  }

  /** Where an offset is stored, in built-in arithmetic */
  lemma PlaceOf(opts: Opts, offset: nat)
    requires ValidOpts(opts)
    ensures OffInPart(offset) == offset % P
    ensures !opts.circular ==> Part(opts, offset) == offset / P
    ensures opts.circular ==> opts.maxSize / P > 0 && Part(opts, offset) == (offset / P) % (opts.maxSize / P)
  {
    BuiltIn(offset, P);
    if opts.circular {
      MaxPartPositive(opts);
      BuiltIn(opts.maxSize, P);
      BuiltIn(Seg(offset), MaxPart(opts));
    }
  }

  // ---------------------------------------------------------------- arithmetic of segments

  lemma {:induction false} SegFacts(offset: nat)
    ensures SegStart(Seg(offset)) <= offset < SegStart(Seg(offset)) + P
    ensures OffInPart(offset) == offset - SegStart(Seg(offset))
  {
    DivMod(offset, P);
  }

  lemma {:induction false} SegOrder(m: nat, n: nat)
    ensures m < n ==> SegStart(m) + P <= SegStart(n)
    ensures m <= n ==> SegStart(m) <= SegStart(n)
    ensures SegStart(m + n) == SegStart(m) + SegStart(n)
    ensures SegStart(m + 1) == SegStart(m) + P
  {
    MulAdd(m, n, P);
    if m < n {
      MulOrder(m, n, P);
    }
  }

  /** A segment is determined by any offset inside it. */
  lemma {:induction false} SegUnique(offset: nat, n: nat)
    requires SegStart(n) <= offset < SegStart(n) + P
    ensures Seg(offset) == n && OffInPart(offset) == offset - SegStart(n)
  {
    DivUnique(offset, n, P);
  }

  /** Within one turn of the ring, different segments have different parts. */
  lemma {:induction false} PartOfSegDistinct(opts: Opts, m: nat, n: nat)
    requires ValidOpts(opts)
    requires m < n
    requires opts.circular ==> n < m + MaxPart(opts)
    ensures PartOfSeg(opts, m) != PartOfSeg(opts, n)
  {
    if opts.circular {
      MaxPartPositive(opts);
      ModDistinct(m, n, MaxPart(opts));
    }
  }

  /** Two offsets less than a ring apart share a stored byte only if they are equal. */
  lemma {:induction false} SamePlace(opts: Opts, a: nat, b: nat)
    requires ValidOpts(opts)
    requires Part(opts, a) == Part(opts, b) && OffInPart(a) == OffInPart(b)
    requires opts.circular ==> a < b + opts.maxSize && b < a + opts.maxSize
    ensures a == b
  {
    if a < b {
      SamePlaceOrdered(opts, a, b);
    } else if b < a {
      SamePlaceOrdered(opts, b, a);
    }
  }

  lemma {:induction false} SamePlaceOrdered(opts: Opts, a: nat, b: nat)
    requires ValidOpts(opts)
    requires a < b && (opts.circular ==> b < a + opts.maxSize)
    requires OffInPart(a) == OffInPart(b)
    ensures Part(opts, a) != Part(opts, b)
  {
    var m, n := Seg(a), Seg(b);
    SegFacts(a);
    SegFacts(b);
    SegOrder(n, m);
    if opts.circular {
      MaxPartPositive(opts);
      SegOrder(m, MaxPart(opts));
      SegOrder(m + MaxPart(opts), n);
    }
    PartOfSegDistinct(opts, m, n);
  }
}
