/** What each file operation does to the plain byte log, independently of parts, cache and rows. */
module FileSpec {
  import opened Basics
  import opened Wrappers
  import opened RingArith
  import opened FileLayout
  import opened FileLog
  import opened FileDatabase

  /** CompactDbError is a database error met while a log is read to be compacted. */
  datatype Error =
    | NotExist | Exist | BadOptions | BadOffset | BadSize | NotIJson | BadIJson
    | DbError | CompactDbError | Timeout | FlushFailed | TooManyFlushErrors

  datatype Result = Ok | Err(error: Error)

  /** A read can also panic, when the code asks `make` for a negative size. */
  datatype ReadResult = ReadOk(offset: nat, data: seq<byte>) | ReadErr(readError: Error) | ReadPanic

  /** Which database calls of one operation succeed, and how its write transaction ends. */
  datatype Env = Env(getFile: bool, getParts: bool, tx: TxEnd)

  /** What a file is to its users: nothing, or its options, its log, the log the database alone holds, how many flushes
      have failed since the entry was last clean, and what AppendIJson has counted since. */
  datatype Abs = Absent | Present(opts: Opts, log: seq<byte>, durable: seq<byte>, fails: nat, counts: Counts)

  /** ijson.CompactIJson, of which only the bytes it returns matter here. */
  type Compactor = seq<byte> -> Option<seq<byte>>

  const NEWLINE: byte := 10

  ghost predicate Failed(before: Abs, r: Result, after: Abs, env: Env) {
    && after == before
    && ((r == Err(NotExist) && before.Absent?) || (r == Err(DbError) && !(env.getFile && env.getParts)))
  }

  /** The options MakeFile stores: a ring is rounded up to whole parts. */
  function StoredOpts(opts: Opts): Opts
    requires opts.maxSize >= 0
  {
    if opts.circular && Mod(opts.maxSize, P) != 0
    then opts.(maxSize := Mul(Div(opts.maxSize, P) + 1, P))
    else opts
  }

  predicate OptsAccepted(opts: Opts) {
    && opts.maxSize >= 0 && (opts.circular ==> opts.maxSize > 0 && !opts.ijson)
    && opts.ijsonBudget >= 0 && (opts.ijsonBudget > 0 ==> opts.ijson)
  }

  ghost predicate MakeFileSpec(before: Abs, opts: Opts, insertOk: bool, r: Result, after: Abs) {
    if !OptsAccepted(opts) then r == Err(BadOptions) && after == before
    else if before.Present? then after == before && (r == Err(Exist) || (r == Err(DbError) && !insertOk))
    else if !insertOk then r == Err(DbError) && after == before
    else r == Ok && after == Present(StoredOpts(opts), [], [], 0, NO_COUNTS)
  }

  /** Deleting is synchronous and drops unflushed bytes too. */
  ghost predicate DeleteSpec(before: Abs, deleteOk: bool, r: Result, after: Abs) {
    if deleteOk then r == Ok && after == Absent else r == Err(DbError) && after == before
  }

  /** A flush never changes the log, unless it is the fourth failure since the entry was last clean: then the
      unflushed bytes are dropped and the log is what the database holds. The counts go with the cached metadata. */
  ghost predicate FlushSpec(before: Abs, tx: TxEnd, r: Result, after: Abs) {
    match before
    case Absent => r == Ok && after == Absent
    case Present(opts, log, durable, fails, counts) =>
      || (r == Ok && after == Present(opts, log, log, 0, NO_COUNTS) &&
            (tx.Committed? || (log == durable && fails == 0)))
      || (r == Err(Timeout) && tx.CommittedButTimedOut? && after == before.(durable := log))
      || (r == Err(Timeout) && tx.TimedOut? && after == before)
      || (r == Err(FlushFailed) && tx.Failed? && fails < 3 && after == before.(fails := fails + 1))
      || (r == Err(TooManyFlushErrors) && tx.Failed? && fails >= 3 &&
          after == Present(opts, durable, durable, 0, NO_COUNTS))
  }

  /** The whole log is replaced in the cache, and then flushed. */
  ghost predicate WriteFileSpec(before: Abs, data: seq<byte>, env: Env, r: Result, after: Abs) {
    || Failed(before, r, after, env)
    || (before.Present? && FlushSpec(before.(log := data), env.tx, r, after))
  }

  /** A positioned write is an overlay of the log, except in the lossy straddling case. */
  ghost predicate WriteAtSpec(before: Abs, cached: set<nat>, offset: int, data: seq<byte>, env: Env, r: Result,
                              after: Abs)
    requires before.Present? ==> ValidOpts(before.opts)
  {
    if offset < 0 then r == Err(BadOffset) && after == before
    else
      || Failed(before, r, after, env)
      || (before.Present? && offset > |before.log| && r == Err(BadOffset) && after == before)
      || (before.Present? && offset <= |before.log| && r == Ok
          && after == before.(log := LogAfterWrite(before.opts, before.log, cached, offset, data)))
  }

  ghost predicate AppendSpec(before: Abs, data: seq<byte>, env: Env, r: Result, after: Abs) {
    || Failed(before, r, after, env)
    || (before.Present? && r == Ok && after == before.(log := before.log + data))
  }

  ghost predicate CompactSpec(before: Abs, compact: Compactor, env: Env, r: Result, after: Abs)
    requires before.Present?
  {
    || (r == Err(CompactDbError) && !(env.getFile && env.getParts) && after == before)
    || (r == Err(BadIJson) && compact(before.log).None? && after == before)
    || (r == Ok && compact(before.log).Some? && after == before.(log := compact(before.log).value))
  }

  const IJSON_HIGH_COMMANDS := 100
  const IJSON_HIGH_RATIO := 3
  const IJSON_LOW_RATIO := 1
  const IJSON_LOW_COMMANDS := 10

  /** A command of this many bytes has been appended, and a newline. */
  function CountsAfter(counts: Counts, len: nat): Counts {
    Counts(counts.numCmds + 1, counts.incBytes + len + 1)
  }

  /** Many commands, or many bytes of commands for a log of this size */
  predicate ShouldCompact(counts: Counts, size: nat) {
    || counts.numCmds > IJSON_HIGH_COMMANDS
    || counts.incBytes >= IJSON_HIGH_RATIO * size
    || (counts.numCmds > IJSON_LOW_COMMANDS && counts.incBytes >= IJSON_LOW_RATIO * size)
  }

  /** Appending a command and a newline; but for the first command of a file, it is counted, and the counts decide
      whether to compact as well. */
  ghost predicate AppendIJsonSpec(before: Abs, compact: Compactor, data: seq<byte>, env: Env, compactEnv: Env,
                                  r: Result, after: Abs) {
    || Failed(before, r, after, env)
    || (before.Present? && !before.opts.ijson && r == Err(NotIJson) && after == before)
    || (before.Present? && before.opts.ijson
        && var appended := before.(log := before.log + data + [NEWLINE]);
          if before.log == [] then r == Ok && after == appended
          else
            var counted := appended.(counts := CountsAfter(before.counts, |data|));
            if ShouldCompact(counted.counts, |counted.log|) then CompactSpec(counted, compact, compactEnv, r, after)
            else r == Ok && after == counted)
  }

  ghost predicate CompactIJsonSpec(before: Abs, compact: Compactor, env: Env, r: Result, after: Abs) {
    || Failed(before, r, after, env)
    || (before.Present? && !before.opts.ijson && r == Err(NotIJson) && after == before)
    || (before.Present? && before.opts.ijson && CompactSpec(before, compact, env, r, after))
  }

  /** A read returns exactly the part of the requested range that the file still has. */
  ghost predicate ReadSpec(f: Abs, offset: int, size: int, env: Env, r: ReadResult)
    requires f.Present? ==> ValidOpts(f.opts)
  {
    if size < 0 then r == ReadErr(BadSize)
    else if offset < 0 then r == ReadErr(BadOffset)
    else if r == ReadErr(DbError) then !(env.getFile && env.getParts)
    else match f
      case Absent => r == ReadErr(NotExist)
      case Present(opts, log, _, _, _) =>
        var lo := Max(offset, DataStart(opts, |log|));
        var hi := Min(offset + size, |log|);
        if lo < hi then r == ReadOk(lo, log[lo..hi])
        else if opts.circular then r == ReadOk(DataStart(opts, |log|), [])
        else if offset <= |log| then r == ReadOk(offset, [])
        else r == ReadPanic
  }

  /** Reading the whole file returns everything it still has. */
  ghost predicate ReadFileSpec(f: Abs, env: Env, r: ReadResult)
    requires f.Present? ==> ValidOpts(f.opts)
  {
    if r == ReadErr(DbError) then !(env.getFile && env.getParts)
    else match f
      case Absent => r == ReadErr(NotExist)
      case Present(opts, log, _, _, _) => r == ReadOk(DataStart(opts, |log|), log[DataStart(opts, |log|)..])
  }
}
