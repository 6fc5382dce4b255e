/** Whole runs of operations on one file: every run of the cache entry is a run of the plain log. */
module FileRuns {
  import opened Basics
  import opened Wrappers
  import opened FileLayout
  import opened FileLog
  import opened FileDatabase
  import opened FileSpec
  import opened FileCache

  datatype Op =
    | MakeFile(opts: Opts, insertOk: bool)
    | WriteFile(data: seq<byte>, env: Env)
    | WriteAt(offset: int, data: seq<byte>, env: Env)
    | AppendData(data: seq<byte>, env: Env)
    | AppendIJson(data: seq<byte>, env: Env, compactEnv: Env)
    | CompactIJson(env: Env)
    | Flush(tx: TxEnd)
    | Delete(deleteOk: bool)
    | ReadAt(offset: int, size: int, env: Env)
    | ReadFile(env: Env)

  datatype Out = Done(result: Result) | Got(read: ReadResult)

  predicate OpOk(op: Op) {
    op.AppendIJson? ==> op.data != []  // a marshalled command is never empty
  }

  ghost predicate FileOk(f: Abs) {
    f.Present? ==> ValidOpts(f.opts)
  }

  /** One operation on the plain log. */
  ghost predicate Step(compact: Compactor, before: Abs, op: Op, out: Out, after: Abs)
    requires FileOk(before)
  {
    match op
    case MakeFile(opts, insertOk) => out.Done? && MakeFileSpec(before, opts, insertOk, out.result, after)
    case WriteFile(data, env) => out.Done? && WriteFileSpec(before, data, env, out.result, after)
    case WriteAt(offset, data, env) =>
      out.Done? && exists cached: set<nat> :: WriteAtSpec(before, cached, offset, data, env, out.result, after)
    case AppendData(data, env) => out.Done? && AppendSpec(before, data, env, out.result, after)
    case AppendIJson(data, env, compactEnv) =>
      out.Done? && AppendIJsonSpec(before, compact, data, env, compactEnv, out.result, after)
    case CompactIJson(env) => out.Done? && CompactIJsonSpec(before, compact, env, out.result, after)
    case Flush(tx) => out.Done? && FlushSpec(before, tx, out.result, after)
    case Delete(deleteOk) => out.Done? && DeleteSpec(before, deleteOk, out.result, after)
    case ReadAt(offset, size, env) => out.Got? && after == before && ReadSpec(before, offset, size, env, out.read)
    case ReadFile(env) => out.Got? && after == before && ReadFileSpec(before, env, out.read)
  }

  /** views are the states that the operations lead through, and outs their results. */
  ghost predicate Run(compact: Compactor, ops: seq<Op>, outs: seq<Out>, views: seq<Abs>) {
    && |outs| == |ops| && |views| == |ops| + 1
    && (forall k :: 0 <= k < |views| ==> FileOk(views[k]))
    && (forall k :: 0 <= k < |ops| ==> Step(compact, views[k], ops[k], outs[k], views[k + 1]))
  }

  method RunOne(e: CacheEntry, compact: Compactor, op: Op) returns (out: Out)
    requires e.Valid() && OpOk(op)
    modifies e, e.db, e.Repr
    ensures e.Valid() && fresh(e.Repr - old(e.Repr))
    ensures FileOk(old(e.View())) && FileOk(e.View())
    ensures Step(compact, old(e.View()), op, out, e.View())
  {
    hide Holds, Caches, MakeFileSpec, WriteFileSpec, WriteAtSpec, AppendSpec, AppendIJsonSpec, CompactIJsonSpec,
      FlushSpec, DeleteSpec, ReadSpec, ReadFileSpec;
    match op
    case MakeFile(opts, insertOk) => var r := e.MakeFile(opts, insertOk); out := Done(r);
    case WriteFile(data, env) => var r := e.WriteFile(data, env); out := Done(r);
    case WriteAt(offset, data, env) => var r := e.WriteAt(offset, data, env); out := Done(r);
    case AppendData(data, env) => var r := e.AppendData(data, env); out := Done(r);
    case AppendIJson(data, env, compactEnv) =>
      var r := e.AppendIJson(data, compact, env, compactEnv); out := Done(r);
    case CompactIJson(env) => var r := e.CompactIJson(compact, env); out := Done(r);
    case Flush(tx) => var r := e.FlushToDB(false, tx); out := Done(r);
    case Delete(deleteOk) => var r := e.DeleteFile(deleteOk); out := Done(r);
    case ReadAt(offset, size, env) => var r := e.ReadAt(offset, size, env); out := Got(r);
    case ReadFile(env) => var r := e.ReadFile(env); out := Got(r);
  }

  /** Every run of a cache entry, with any database failures, is a run of the plain log. */
  method RunAll(e: CacheEntry, compact: Compactor, ops: seq<Op>) returns (outs: seq<Out>, ghost views: seq<Abs>)
    requires e.Valid() && forall k :: 0 <= k < |ops| ==> OpOk(ops[k])
    modifies e, e.db, e.Repr
    ensures e.Valid()
    ensures Run(compact, ops, outs, views) && views[0] == old(e.View()) && views[|ops|] == e.View()
  {
    hide Holds, Caches, Step;
    outs, views := [], [e.View()];
    for n := 0 to |ops|
      invariant e.Valid() && fresh(e.Repr - old(e.Repr))
      invariant |outs| == n && |views| == n + 1 && views[0] == old(e.View()) && views[n] == e.View()
      invariant forall k :: 0 <= k <= n ==> FileOk(views[k])
      invariant forall k :: 0 <= k < n ==> Step(compact, views[k], ops[k], outs[k], views[k + 1])
    {
      var out := RunOne(e, compact, ops[n]);
      outs, views := outs + [out], views + [e.View()];
    }
  }

  // ---------------------------------------------------------------- consequences for whole runs

  /** The log in the database is one that the file had at some earlier moment. */
  lemma {:induction false} DurableIsPast(compact: Compactor, ops: seq<Op>, outs: seq<Out>, views: seq<Abs>, k: nat)
      returns (j: nat)
    requires Run(compact, ops, outs, views) && views[0].Absent? && k <= |ops| && views[k].Present?
    ensures j <= k && views[j].Present? && views[j].log == views[k].durable
  {
    if views[k].durable == views[k].log {
      j := k;
    } else {
      StepKeepsDurable(compact, views[k - 1], ops[k - 1], outs[k - 1], views[k]);
      j := DurableIsPast(compact, ops, outs, views, k - 1);
    }
  }

  lemma {:induction false} StepKeepsDurable(compact: Compactor, before: Abs, op: Op, out: Out, after: Abs)
    requires FileOk(before) && Step(compact, before, op, out, after) && after.Present?
    ensures after.durable == after.log || (before.Present? && after.durable == before.durable)
  {
  }

  /** A file without parts, cache, database or failures. */
  datatype Plain = NoFile | File(opts: Opts, log: seq<byte>, counts: Counts)

  function PlainOf(f: Abs): Plain {
    match f
    case Absent => NoFile
    case Present(opts, log, _, _, counts) => File(opts, log, counts)
  }

  function PlainCompact(compact: Compactor, f: Plain): Plain {
    if f.File? && compact(f.log).Some? then f.(log := compact(f.log).value) else f
  }

  /** A flush that commits in time drops the cached metadata, and the counts with it. */
  function Flushed(f: Plain, out: Out): Plain {
    if f.File? && out == Done(Ok) then f.(counts := NO_COUNTS) else f
  }

  /** What one operation makes of a plain file, going by the error it returned. */
  function PlainStep(compact: Compactor, f: Plain, op: Op, out: Out): Plain {
    if out == Done(Err(DbError)) then f
    else match op
      case MakeFile(opts, _) => if f.NoFile? && OptsAccepted(opts) then File(StoredOpts(opts), [], NO_COUNTS) else f
      case Delete(_) => NoFile
      case WriteFile(data, _) => if f.File? then Flushed(f.(log := data), out) else f
      case WriteAt(offset, data, _) =>
        if f.File? && 0 <= offset <= |f.log| then f.(log := Overlay(f.log, offset, data)) else f
      case AppendData(data, _) => if f.File? then f.(log := f.log + data) else f
      case AppendIJson(data, _, _) =>
        if f.NoFile? || !f.opts.ijson then f
        else
          var appended := f.(log := f.log + data + [NEWLINE]);
          var counted := appended.(counts := CountsAfter(f.counts, |data|));
          if f.log == [] then appended
          else if !ShouldCompact(counted.counts, |counted.log|) || out == Done(Err(CompactDbError)) then counted
          else PlainCompact(compact, counted)
      case CompactIJson(_) =>
        if f.File? && f.opts.ijson && out != Done(Err(CompactDbError)) then PlainCompact(compact, f) else f
      case Flush(_) => Flushed(f, out)
      case ReadAt(_, _, _) => f
      case ReadFile(_) => f
  }

  function PlainRun(compact: Compactor, f: Plain, ops: seq<Op>, outs: seq<Out>): Plain
    requires |outs| == |ops|
    decreases |ops|
  {
    var n := |ops| - 1;
    if ops == [] then f else PlainStep(compact, PlainRun(compact, f, ops[..n], outs[..n]), ops[n], outs[n])
  }

  /** A write that destroys nothing outside its range, whatever is cached: it does not lose the head of the window of a
      circular file, or what it loses are zeros. */
  ghost predicate KeepsHead(f: Plain, op: Op) {
    op.WriteAt? && f.File? && ValidOpts(f.opts) && 0 <= op.offset <= |f.log| ==>
      || !LosesHead(f.opts, |f.log|, {}, op.offset, |op.data|)
      || forall o {:trigger f.log[o]} :: LostFrom(f.opts, |f.log|) <= o < |f.log| ==> f.log[o] == 0
  }

  /** Any other write loses bytes, unless the part that it damages is cached. */
  lemma {:induction false} KeepsHeadIff(opts: Opts, log: seq<byte>, counts: Counts, offset: nat, data: seq<byte>,
                                        env: Env)
    requires ValidOpts(opts) && offset <= |log|
    ensures KeepsHead(File(opts, log, counts), WriteAt(offset, data, env)) <==>
      forall cached: set<nat> :: LogAfterWrite(opts, log, cached, offset, data) == Overlay(log, offset, data)
  {
    hide LogAfterWrite, Overlay;
    WriteIsPlainIff(opts, log, {}, offset, data);
    if KeepsHead(File(opts, log, counts), WriteAt(offset, data, env)) {
      forall cached: set<nat>
        ensures LogAfterWrite(opts, log, cached, offset, data) == Overlay(log, offset, data)
      {
        WriteIsPlainIff(opts, log, cached, offset, data);
      }
    }
  }

  /** The operation does not report that the unflushed bytes have been given up, and does not lose the head of a
      window. */
  ghost predicate LosesNothing(f: Plain, op: Op, out: Out) {
    out != Done(Err(TooManyFlushErrors)) && KeepsHead(f, op)
  }

  lemma {:induction false} StepIsPlain(compact: Compactor, before: Abs, op: Op, out: Out, after: Abs)
    requires FileOk(before) && Step(compact, before, op, out, after) && LosesNothing(PlainOf(before), op, out)
    ensures PlainOf(after) == PlainStep(compact, PlainOf(before), op, out)
  {
    hide KeepsHead, Overlay, LogAfterWrite;
    if op.WriteAt? && before.Present? && 0 <= op.offset <= |before.log| {
      KeepsHeadIff(before.opts, before.log, before.counts, op.offset, op.data, op.env);
    }
  }

  /** However often the database fails and flushes are retried, a run leaves exactly what the plain log says, as long as
      no operation loses bytes; flushes, reloads and the state of the cache do not matter. */
  lemma {:induction false} RunIsPlain(compact: Compactor, ops: seq<Op>, outs: seq<Out>, views: seq<Abs>, n: nat)
    requires Run(compact, ops, outs, views) && n <= |ops|
    requires forall k :: 0 <= k < n ==> LosesNothing(PlainOf(views[k]), ops[k], outs[k])
    ensures PlainOf(views[n]) == PlainRun(compact, PlainOf(views[0]), ops[..n], outs[..n])
  {
    hide Step, PlainStep;
    if n > 0 {
      RunIsPlain(compact, ops, outs, views, n - 1);
      StepIsPlain(compact, views[n - 1], ops[n - 1], outs[n - 1], views[n]);
      assert ops[..n][..n - 1] == ops[..n - 1] && outs[..n][..n - 1] == outs[..n - 1];
    }
  }

  /** The operation ends the file, or flushes it in time. */
  predicate ResetsCounts(op: Op, out: Out) {
    op.Delete? || ((op.Flush? || op.WriteFile?) && out == Done(Ok))
  }

  /** A compaction does not reset the counts that led to it: once a hundred commands are counted, every further append
      compacts the file, until it is flushed. */
  lemma {:induction false} CompactsUntilFlush(compact: Compactor, f: Plain, ops: seq<Op>, outs: seq<Out>,
                                              data: seq<byte>)
    requires |outs| == |ops| && f.File? && f.counts.numCmds >= IJSON_HIGH_COMMANDS
    requires forall k :: 0 <= k < |ops| ==> !ResetsCounts(ops[k], outs[k])
    ensures var g := PlainRun(compact, f, ops, outs);
      && g.File? && g.counts.numCmds >= f.counts.numCmds
      && ShouldCompact(CountsAfter(g.counts, |data|), |g.log| + |data| + 1)
    decreases |ops|
  {
    if ops != [] {
      var n := |ops| - 1;
      CompactsUntilFlush(compact, f, ops[..n], outs[..n], data);
      assert !ResetsCounts(ops[n], outs[n]);
    }
  }

  /** When an append compacts: more than 100 commands are counted, or their bytes are three times what the file has, or
      more than 10 and as much as it has. */
  lemma AppendCompactsIff(compact: Compactor, f: Plain, data: seq<byte>, env: Env, compactEnv: Env, out: Out)
    requires f.File? && f.opts.ijson && f.log != [] && out != Done(Err(DbError))
    ensures var log := f.log + data + [10];
      var cmds, bytes, size := f.counts.numCmds + 1, f.counts.incBytes + |data| + 1, |log|;
      var due := cmds > 100 || bytes >= 3 * size || (cmds > 10 && bytes >= size);
      var after := PlainStep(compact, f, AppendIJson(data, env, compactEnv), out);
      if due && out != Done(Err(CompactDbError)) && compact(log).Some?
      then after == f.(log := compact(log).value, counts := Counts(cmds, bytes))
      else after == f.(log := log, counts := Counts(cmds, bytes))
  {
  }

  /** The first command of a file is not counted, and never compacts it. */
  lemma FirstAppend(compact: Compactor, f: Plain, data: seq<byte>, env: Env, compactEnv: Env, out: Out)
    requires f.File? && f.opts.ijson && f.log == [] && out != Done(Err(DbError))
    ensures PlainStep(compact, f, AppendIJson(data, env, compactEnv), out) == f.(log := data + [10])
  {
  }

  /** Which options make a file: no negative size, a ring only of some size and not for ijson, and a budget only for
      ijson and not below zero. */
  lemma OptionsOf(compact: Compactor, opts: Opts, insertOk: bool, out: Out)
    requires out != Done(Err(DbError))
    ensures var f := PlainStep(compact, NoFile, MakeFile(opts, insertOk), out);
      && (f.File? <==>
            && opts.maxSize >= 0 && !(opts.circular && (opts.maxSize == 0 || opts.ijson))
            && opts.ijsonBudget >= 0 && !(opts.ijsonBudget > 0 && !opts.ijson))
      && (f.File? ==> f.log == [] && f.counts == Counts(0, 0) && (!opts.circular ==> f.opts == opts))
      && (f.File? && opts.circular ==>
            f.opts == opts.(maxSize := f.opts.maxSize) && f.opts.maxSize % P == 0 &&
            opts.maxSize <= f.opts.maxSize < opts.maxSize + P)
  {
    if OptsAccepted(opts) && opts.circular {
      RoundedToParts(opts);
    }
  }

  /** The lines that a run of appends adds */
  function Lines(ops: seq<Op>): seq<byte>
    requires forall k :: 0 <= k < |ops| ==> ops[k].AppendIJson?
  {
    if ops == [] then [] else Lines(ops[..|ops| - 1]) + ops[|ops| - 1].data + [10]
  }

  lemma OneOfHundred(compact: Compactor, f: Plain, lines: seq<byte>, n: nat, op: Op, out: Out)
    requires f.File? && f.opts.ijson && f.log != [] && n < 100 && op.AppendIJson? && out != Done(Err(DbError))
    ensures var g, lines' := f.(log := f.log + lines, counts := Counts(n, |lines|)), lines + op.data + [10];
      PlainStep(compact, g, op, out) == f.(log := f.log + lines', counts := Counts(n + 1, |lines'|))
  {
    hide PlainStep;
    var g := f.(log := f.log + lines, counts := Counts(n, |lines|));
    AppendCompactsIff(compact, g, op.data, op.env, op.compactEnv, out);
    assert g.log + op.data + [10] == f.log + (lines + op.data + [10]);
  }

  /** Appends to a flushed file with anything in it: a hundred only add their lines, */
  lemma {:induction false} HundredAppends(compact: Compactor, f: Plain, ops: seq<Op>, outs: seq<Out>)
    requires f.File? && f.opts.ijson && f.log != [] && f.counts == Counts(0, 0)
    requires |outs| == |ops| <= 100
    requires forall k :: 0 <= k < |ops| ==> ops[k].AppendIJson? && outs[k] != Done(Err(DbError))
    ensures var g := PlainRun(compact, f, ops, outs);
      g == f.(log := f.log + Lines(ops), counts := Counts(|ops|, |Lines(ops)|))
    decreases |ops|
  {
    if ops == [] {
      assert f.log + Lines(ops) == f.log;
    } else {
      hide PlainStep;
      var n := |ops| - 1;
      HundredAppends(compact, f, ops[..n], outs[..n]);
      OneOfHundred(compact, f, Lines(ops[..n]), n, ops[n], outs[n]);
    }
  }

  /** and the next one compacts the file. */
  lemma {:induction false} NextAppendCompacts(compact: Compactor, f: Plain, ops: seq<Op>, outs: seq<Out>)
    requires f.File? && f.opts.ijson && f.log != [] && f.counts == Counts(0, 0)
    requires |outs| == |ops| == 101 && outs[100] == Done(Ok)
    requires forall k :: 0 <= k < |ops| ==> ops[k].AppendIJson? && outs[k] != Done(Err(DbError))
    ensures var log, g := f.log + Lines(ops), PlainRun(compact, f, ops, outs);
      g.File? && g.log == if compact(log).Some? then compact(log).value else log
  {
    hide PlainStep;
    HundredAppends(compact, f, ops[..100], outs[..100]);
    var g := PlainRun(compact, f, ops[..100], outs[..100]);
    assert f.log + Lines(ops[..100]) + ops[100].data + [10] == f.log + Lines(ops);
    AppendCompactsIff(compact, g, ops[100].data, ops[100].env, ops[100].compactEnv, outs[100]);
  }

  /** What reading a range of a plain file gives: the part of the range that is in its window. */
  function PlainRead(f: Plain, offset: int, size: int): ReadResult
    requires f.File? ==> ValidOpts(f.opts)
  {
    if size < 0 then ReadErr(BadSize)
    else if offset < 0 then ReadErr(BadOffset)
    else if f.NoFile? then ReadErr(NotExist)
    else
      var start := DataStart(f.opts, |f.log|);
      var lo, hi := Max(offset, start), Min(offset + size, |f.log|);
      if lo < hi then ReadOk(lo, f.log[lo..hi])
      else if f.opts.circular then ReadOk(start, [])
      else if offset <= |f.log| then ReadOk(offset, [])
      else ReadPanic
  }

  /** What reading a whole plain file gives: all that is in its window. */
  function PlainReadAll(f: Plain): ReadResult
    requires f.File? ==> ValidOpts(f.opts)
  {
    if f.NoFile? then ReadErr(NotExist)
    else ReadOk(DataStart(f.opts, |f.log|), f.log[DataStart(f.opts, |f.log|)..])
  }

  /** Every read in such a run gives what the plain file gives, whatever is cached, stored or wrapped by then, unless it
      fails itself for want of the database. */
  lemma {:induction false} RunReadsPlain(compact: Compactor, ops: seq<Op>, outs: seq<Out>, views: seq<Abs>, n: nat)
    requires Run(compact, ops, outs, views) && n < |ops|
    requires forall k :: 0 <= k < n ==> LosesNothing(PlainOf(views[k]), ops[k], outs[k])
    ensures var f := PlainRun(compact, PlainOf(views[0]), ops[..n], outs[..n]);
      && (f.File? ==> ValidOpts(f.opts))
      && (ops[n].ReadAt? || ops[n].ReadFile? ==>
            || outs[n] == Got(if ops[n].ReadFile? then PlainReadAll(f) else PlainRead(f, ops[n].offset, ops[n].size))
            || (outs[n] == Got(ReadErr(DbError)) && !(ops[n].env.getFile && ops[n].env.getParts)))
  {
    RunIsPlain(compact, ops, outs, views, n);
    hide PlainRun;
    assert Step(compact, views[n], ops[n], outs[n], views[n + 1]);
  }

  /** A corollary: a flush, whether it commits, times out or fails, leaves every read with the same answers, unless it
      is the fourth failure since the entry was last clean. */
  lemma {:induction false} FlushIsInvisible(before: Abs, tx: TxEnd, r: Result, after: Abs, offset: int, size: int,
                                            env: Env, read: ReadResult)
    requires FileOk(before) && FlushSpec(before, tx, r, after)
    requires before.Present? && before.fails >= 3 ==> !tx.Failed?
    ensures FileOk(after) && (ReadSpec(before, offset, size, env, read) <==> ReadSpec(after, offset, size, env, read))
    ensures ReadFileSpec(before, env, read) <==> ReadFileSpec(after, env, read)
  {
    StepIsPlain((_) => None, before, Flush(tx), Done(r), after);
  }

  /** Bytes that have been written are read back, as far as they are in the window. */
  lemma {:induction false} ReadBack(compact: Compactor, f: Plain, offset: nat, data: seq<byte>, env: Env)
    requires f.File? && ValidOpts(f.opts) && offset <= |f.log| && data != []
    ensures var g := PlainStep(compact, f, WriteAt(offset, data, env), Done(Ok));
      && g.File? && |g.log| == Max(|f.log|, offset + |data|)
      && (!f.opts.circular || |g.log| - offset <= f.opts.maxSize ==>
            PlainRead(g, offset, |data|) == ReadOk(offset, data))
  {
    var g := PlainStep(compact, f, WriteAt(offset, data, env), Done(Ok));
    assert DataStart(g.opts, |g.log|) <= offset || (f.opts.circular && |g.log| - offset > f.opts.maxSize);
    assert |g.log| >= offset + |data| && g.log[offset..offset + |data|] == data;
  }

  /** A file that has just been written whole, or appended to, is read whole; of a circular one, its
      last maxSize bytes. */
  lemma {:induction false} ReadAllBack(compact: Compactor, f: Plain, data: seq<byte>, env: Env, out: Out)
    requires f.File? && ValidOpts(f.opts) && out != Done(Err(DbError))
    ensures var g := PlainStep(compact, f, WriteFile(data, env), out);
      !f.opts.circular || |data| <= f.opts.maxSize ==> PlainReadAll(g) == ReadOk(0, data)
    ensures var g, log := PlainStep(compact, f, AppendData(data, env), out), f.log + data;
      if f.opts.circular && |log| > f.opts.maxSize
      then PlainReadAll(g) == ReadOk(|log| - f.opts.maxSize, log[|log| - f.opts.maxSize..])
      else PlainReadAll(g) == ReadOk(0, log)
  {
    assert data[0..] == data && (f.log + data)[0..] == f.log + data;
  }

  /** Failed flushes: three in a row leave an entry that was clean alone, and the fourth drops the unflushed bytes. */
  lemma {:induction false} FourthFailure(compact: Compactor, ops: seq<Op>, outs: seq<Out>, views: seq<Abs>, n: nat)
    requires Run(compact, ops, outs, views) && n <= |ops| <= 4
    requires views[0].Present? && views[0].fails == 0 && views[0].log != views[0].durable
    requires forall k :: 0 <= k < n ==> ops[k] == Flush(Failed)
    ensures views[n].Present? && views[n].durable == views[0].durable
    ensures if n < 4 then views[n].log == views[0].log && views[n].fails == n
            else views[n].log == views[0].durable && outs[3] == Done(Err(TooManyFlushErrors))
    decreases n
  {
    if n > 0 {
      FourthFailure(compact, ops, outs, views, n - 1);
      assert Step(compact, views[n - 1], ops[n - 1], outs[n - 1], views[n]);
    }
  }
}
