/** The write-back cache entry of one file (blockstore_cache.go) and the operations on it
    (blockstore.go). The ghost field `log` is the plain byte log the entry stands for; `durable` is the
    one the database alone stands for. */
module FileCache {
  import opened Basics
  import opened Wrappers
  import opened RingArith
  import opened FileLayout
  import opened FileParts
  import opened FileLog
  import opened FileDatabase
  import opened FilePartMap
  import opened FileSpec

  class CacheEntry {
    const db: FileRows
    var file: Option<StarFile>
    var dataEntries: map<nat, DataCacheEntry>
    var flushErrors: nat
    ghost var cached: map<nat, Row>
    ghost var Repr: set<object>
    ghost var log: seq<byte>
    ghost var durable: seq<byte>

    /** The part buffers are distinct and hold `cached`. */
    ghost predicate Shape()
      reads this, Repr
    {
      this !in Repr && db !in Repr && dataEntries.Keys == cached.Keys && Caches(dataEntries, cached, Repr) &&
        RowsOk(cached)
    }

    /** The parts in the cache and the rows in the database hold the log; the rows alone hold the durable log. */
    ghost predicate Agrees()
      reads this, db
    {
      match db.header
      case None => file.None? && log == [] && durable == []
      case Some(h) =>
        && ValidOpts(h.opts)
        && h.size == |durable|
        && Holds(h.opts, map[], db.rows, durable)
        && Holds(h.opts, cached, db.rows, log)
        && (file.Some? ==> file.value.opts == h.opts && file.value.size == |log|)
    }

    ghost predicate Valid()
      reads this, db, Repr
    {
      && Shape()
      && db.RowsFit() && Agrees()
      && (file.None? ==> dataEntries == map[] && log == durable && flushErrors == 0)
    }

    /** Counts are lost with the cached metadata. */
    ghost function CountsNow(): Counts
      reads this
    {
      if file.Some? then file.value.counts else NO_COUNTS
    }

    ghost function View(): Abs
      reads this, db
    {
      match db.header
      case None => Absent
      case Some(h) => Present(h.opts, log, durable, flushErrors, CountsNow())
    }

    /** makeCacheEntry, for a key that is not in the database */
    constructor ()
      ensures Valid() && fresh(db) && Repr == {} && View() == Absent
    {
      db := new FileRows();
      file := None;
      dataEntries, cached, Repr := map[], map[], {};
      flushErrors := 0;
      log, durable := [], [];
    }

    method Clear()
      modifies this`file, this`dataEntries, this`flushErrors, this`cached
      ensures file == None && dataEntries == map[] && cached == map[] && flushErrors == 0
    {
      file := None;
      dataEntries, cached := map[], map[];
      flushErrors := 0;
    }

    /** loadFileForRead. The counts in stored metadata come back from JSON as float64s, which metaIncrement does not
        take for counts. */
    method LoadFileForRead(ok: bool) returns (err: Result, f: StarFile)
      requires Valid()
      ensures err.Ok? ==> db.header.Some? && f == StarFile(db.header.value.opts, |log|, CountsNow())
      ensures err.Err? ==> file.None? && err.error == if !ok then DbError else NotExist
      ensures err == Err(NotExist) ==> db.header.None?
    {
      if file.Some? {
        return Ok, file.value;
      }
      if !ok {
        return Err(DbError), StarFile(Opts(false, 0, false, 0), 0, NO_COUNTS);
      }
      if db.header.None? {
        return Err(NotExist), StarFile(Opts(false, 0, false, 0), 0, NO_COUNTS);
      }
      return Ok, db.header.value.(counts := NO_COUNTS);
    }

    method LoadFileIntoCache(ok: bool) returns (err: Result)
      requires Valid()
      modifies this`file
      ensures Valid() && CountsNow() == old(CountsNow())
      ensures err.Ok? ==> file.Some?
      ensures err.Err? ==> err.error == (if !ok then DbError else NotExist)
      ensures err == Err(NotExist) ==> db.header.None?
    {
      var f;
      err, f := LoadFileForRead(ok);
      if err.Ok? {
        file := Some(f);
      }
    }

    method GetOrCreateDataCacheEntry(partIdx: nat) returns (d: DataCacheEntry)
      requires Shape()
      modifies this`dataEntries, this`cached, this`Repr
      ensures Shape() && fresh(Repr - old(Repr))
      ensures partIdx in dataEntries && dataEntries[partIdx] == d
      ensures cached == old(cached)[partIdx := RowOrFresh(old(cached), partIdx)]
    {
      if partIdx !in dataEntries {
        var made := new DataCacheEntry(partIdx);
        CachesAdd(dataEntries, cached, Repr, partIdx, made, FreshRow());
        dataEntries, cached := dataEntries[partIdx := made], cached[partIdx := FreshRow()];
        Repr := Repr + {made, made.data};
      }
      d := dataEntries[partIdx];
    }

    method WriteToCachedPart(partIdx: nat, offset: nat, data: seq<byte>) returns (n: nat)
      requires Shape() && partIdx in dataEntries && offset < P
      modifies this`cached, Repr
      ensures Shape()
      ensures n == Min(P - offset, |data|)
      ensures cached == old(cached)[partIdx := WriteRow(old(cached)[partIdx], offset, data[..n])]
    {
      assert IsBuffer(dataEntries[partIdx], partIdx, cached[partIdx]);
      n := dataEntries[partIdx].WriteToPart(offset, data);
      forall j | j in dataEntries && j != partIdx
        ensures IsBuffer(dataEntries[j], j, cached[j])
      {
        assert old(IsBuffer(dataEntries[j], j, cached[j]));
      }
      cached := cached[partIdx := WriteRow(cached[partIdx], offset, data[..n])];
    }

    /** One turn of the loop of writeAt. */
    method WriteChunk(offset: nat, data: seq<byte>) returns (n: nat)
      requires Shape() && file.Some? && ValidOpts(file.value.opts) && data != []
      modifies this`dataEntries, this`cached, this`Repr, Repr
      ensures Shape() && fresh(Repr - old(Repr))
      ensures n == ChunkLen(offset, |data|)
      ensures cached == FirstChunk(file.value.opts, old(cached), offset, data)
    {
      hide Caches;
      var partIdx := Part(file.value.opts, offset);
      var _ := GetOrCreateDataCacheEntry(partIdx);
      n := WriteToCachedPart(partIdx, OffInPart(offset), data);
      assert cached == old(cached)[partIdx := WriteRow(RowOrFresh(old(cached), partIdx), OffInPart(offset), data[..n])];
    }

    /** The loop of writeAt. */
    method WriteLoop(offset: nat, data: seq<byte>)
      requires Shape() && file.Some? && ValidOpts(file.value.opts)
      modifies this`dataEntries, this`cached, this`Repr, Repr
      ensures Shape() && fresh(Repr - old(Repr))
      ensures cached == WriteParts(file.value.opts, old(cached), offset, data)
    {
      hide Caches, FirstChunk, WriteParts;
      var off, rest := offset, data;
      while rest != []
        invariant Shape() && fresh(Repr - old(Repr)) && file == old(file)
        invariant WriteParts(file.value.opts, cached, off, rest) ==
          WriteParts(file.value.opts, old(cached), offset, data)
        decreases |rest|
      {
        WritePartsUnfold(file.value.opts, cached, off, rest);
        var nw := WriteChunk(off, rest);
        rest, off := rest[nw..], off + nw;
      }
      WritePartsNothing(file.value.opts, cached, off);
    }

    /** writeAt */
    method WriteAtCache(offset: nat, data: seq<byte>, replace: bool)
      requires Shape() && file.Some? && ValidOpts(file.value.opts)
      modifies this`file, this`dataEntries, this`cached, this`Repr, Repr
      ensures Shape() && fresh(Repr - old(Repr))
      ensures file == Some(old(file).value.(
        size := if replace then offset + |data| else Max(old(file).value.size, offset + |data|)))
      ensures cached == CacheAfterWrite(old(file).value.opts, if replace then map[] else old(cached),
        if replace then 0 else old(file).value.size, offset, data)
    {
      hide Caches, WriteParts;
      var opts := file.value.opts;
      if replace {
        file := Some(file.value.(size := 0));
      }
      var off, rest := offset, data;
      if opts.circular {
        var startCirFileOffset := file.value.size - opts.maxSize;
        if off + |rest| <= startCirFileOffset {
          return;
        }
        if off < startCirFileOffset {
          var truncateAmt := startCirFileOffset - off;
          rest, off := rest[truncateAmt..], off + truncateAmt;
        }
        if |rest| > opts.maxSize {
          var truncateAmt := |rest| - opts.maxSize;
          rest, off := rest[truncateAmt..], off + truncateAmt;
        }
      }
      assert off == offset + Clipped(opts, file.value.size, offset, |data|);
      assert rest == data[off - offset..];
      var endWriteOffset := off + |rest|;
      if replace {
        dataEntries, cached := map[], map[];
        NothingCached(Repr);
      }
      WriteLoop(off, rest);
      if endWriteOffset > file.value.size || replace {
        file := Some(file.value.(size := endWriteOffset));
      }
    }

    /** loadDataPartsIntoCache, after pruning the parts that are already cached */
    method LoadDataPartsIntoCache(parts: set<nat>, ok: bool) returns (err: Result)
      requires Valid() && file.Some?
      modifies this`dataEntries, this`cached, this`Repr
      ensures Valid() && fresh(Repr - old(Repr)) && View() == old(View())
      ensures err == Ok || (err == Err(DbError) && !ok)
      ensures err.Ok? ==> forall i :: i in parts ==> i in cached || i !in db.rows
      ensures forall i :: i in cached ==> i in old(cached) || i in parts
      ensures forall i :: i in old(cached) ==> i in cached
    {
      hide Caches, Holds, NoSharing;
      var pruned := PrunePartsWithCache(parts);
      assert forall i :: i in parts ==> i in cached || i in pruned;
      if pruned == {} {
        return Ok;
      }
      var found, loaded, repr := db.GetFileParts(pruned, ok);
      if found.None? {
        return Err(DbError);
      }
      AddLoaded(found.value, loaded, repr);
      return Ok;
    }

    method AddLoaded(found: map<nat, DataCacheEntry>, ghost loaded: map<nat, Row>, ghost repr: set<object>)
      requires Valid() && file.Some?
      requires Caches(found, loaded, repr) && RowsOk(loaded) && repr !! Repr && this !in repr && db !in repr
      requires loaded.Keys !! cached.Keys && loaded.Keys <= db.rows.Keys && found.Keys == loaded.Keys
      requires forall i :: i in loaded ==>
        loaded[i].used == |db.rows[i]| && loaded[i].bytes[..|db.rows[i]|] == db.rows[i]
      modifies this`dataEntries, this`cached, this`Repr
      ensures Valid() && Repr == old(Repr) + repr && View() == old(View())
      ensures cached.Keys == old(cached).Keys + loaded.Keys
    {
      hide Caches, Holds, RowsOk;
      CachesMerge(dataEntries, cached, Repr, found, loaded, repr);
      LoadHolds(db.header.value.opts, cached, loaded, db.rows, log);
      RowsMerge(cached, loaded);
      dataEntries, cached := dataEntries + found, cached + loaded;
      Repr := Repr + repr;
    }

    method PrunePartsWithCache(parts: set<nat>) returns (r: set<nat>)
      ensures r == parts - dataEntries.Keys
    {
      r := {};
      var todo := parts;
      while todo != {}
        invariant todo <= parts
        invariant r == parts - todo - dataEntries.Keys
        decreases todo
      {
        var i :| i in todo;
        if i !in dataEntries {
          r := r + {i};
        }
        todo := todo - {i};
      }
    }

    /** The steps that WriteAt, AppendData and AppendIJson take before writing: computePartMap, and loading the
        parts that are incomplete. */
    method LoadForWrite(offset: nat, len: nat, ok: bool) returns (err: Result, ghost partMap: map<nat, int>)
      requires Valid() && file.Some?
      modifies this`dataEntries, this`cached, this`Repr
      ensures Valid() && fresh(Repr - old(Repr)) && View() == old(View())
      ensures err == Ok || (err == Err(DbError) && !ok)
      ensures IsPartMap(file.value.opts, offset, offset + len, partMap)
      ensures err.Ok? ==> IncompleteLoaded(cached, db.rows, partMap)
      ensures forall i :: i in cached ==> i in old(cached) || (i in partMap && partMap[i] != P)
      ensures forall i :: i in old(cached) ==> i in cached
    {
      hide IsPartMap, Holds, Caches;
      var m := ComputePartMap(file.value.opts, offset, len);
      partMap := m;
      var incompleteParts := IncompleteParts(m);
      err := LoadDataPartsIntoCache(incompleteParts, ok);
    }

    // -------------------------------------------------------------- operations

    method MakeFile(opts: Opts, insertOk: bool) returns (r: Result)
      requires Valid()
      modifies db
      ensures Valid()
      ensures MakeFileSpec(old(View()), opts, insertOk, r, View())
    {
      if opts.maxSize < 0 || (opts.circular && opts.maxSize <= 0) || (opts.circular && opts.ijson) {
        return Err(BadOptions);
      }
      var stored := opts;
      if opts.circular && Mod(opts.maxSize, P) != 0 {
        stored := opts.(maxSize := Mul(Div(opts.maxSize, P) + 1, P));
        RoundedUp(opts);
      }
      if (opts.ijsonBudget > 0 && !opts.ijson) || opts.ijsonBudget < 0 {
        return Err(BadOptions);
      }
      if file.Some? {
        return Err(Exist);
      }
      // dbInsertFile
      if !insertOk {
        return Err(DbError);
      }
      if db.header.Some? {
        return Err(Exist);
      }
      db.header := Some(StarFile(stored, 0, NO_COUNTS));
      return Ok;
    }

    method DeleteFile(deleteOk: bool) returns (r: Result)
      requires Valid()
      modifies this, db
      ensures Valid() && Repr == old(Repr)
      ensures DeleteSpec(old(View()), deleteOk, r, View())
    {
      if !deleteOk {
        return Err(DbError);
      }
      db.header, db.rows := None, map[];
      Clear();
      NothingCached(Repr);
      log, durable := [], [];
      return Ok;
    }

    /** flushToDB; deleting the old rows first needs the whole log to be in the cache. */
    method FlushToDB(replace: bool, tx: TxEnd) returns (r: Result)
      requires Valid()
      requires replace ==> file.Some? && Holds(file.value.opts, cached, map[], log)
      modifies this, db
      ensures Valid() && Repr == old(Repr)
      ensures FlushSpec(old(View()), tx, r, View())
    {
      hide Caches, Holds, RowsOk, RowsAfterFlush;
      if file.None? {
        return Ok;
      }
      if tx.Committed? || tx.CommittedButTimedOut? {
        FlushHolds(file.value.opts, cached, db.rows, log, replace);
        FlushFits(db.rows, cached, replace);
        var found := db.WriteCacheEntry(file.value, dataEntries, replace, cached, Repr);
        durable := log;
        if tx.CommittedButTimedOut? {
          return Err(Timeout);
        }
        Clear();
        NothingCached(Repr);
        return Ok;
      }
      if tx.TimedOut? {
        return Err(Timeout);
      }
      flushErrors := flushErrors + 1;
      if flushErrors > 3 {
        Clear();
        NothingCached(Repr);
        log := durable;
        return Err(TooManyFlushErrors);
      }
      return Err(FlushFailed);
    }

    method WriteFile(data: seq<byte>, env: Env) returns (r: Result)
      requires Valid()
      modifies this, Repr, db
      ensures Valid() && fresh(Repr - old(Repr))
      ensures WriteFileSpec(old(View()), data, env, r, View())
    {
      hide Caches, Holds, RowsOk;
      r := LoadFileIntoCache(env.getFile);
      if r.Err? {
        return;
      }
      WriteAtCache(0, data, true);
      ReplaceHolds(file.value.opts, db.rows, data);
      ReplaceHolds(file.value.opts, map[], data);
      log := data;
      r := FlushToDB(true, env.tx);
    }

    method WriteAt(offset: int, data: seq<byte>, env: Env) returns (r: Result)
      requires Valid()
      modifies this, Repr
      ensures Valid() && fresh(Repr - old(Repr))
      ensures WriteAtSpec(old(View()), old(cached).Keys, offset, data, env, r, View())
    {
      hide Caches, Holds, IsPartMap, IncompleteLoaded, CacheAfterWrite, RowsOk, Straddles;
      if offset < 0 {
        return Err(BadOffset);
      }
      r := LoadFileIntoCache(env.getFile);
      if r.Err? {
        return;
      }
      if offset > file.value.size {
        return Err(BadOffset);
      }
      ghost var opts, m := file.value.opts, map[];
      r, m := LoadForWrite(offset, |data|, env.getParts);
      if r.Err? {
        return;
      }
      LossBeforeLoading(opts, |log|, old(cached).Keys, cached.Keys, offset, |data|, m);
      WriteAtKeepsLog(opts, cached, db.rows, log, offset, data, m);
      log := LogAfterWrite(opts, log, cached.Keys, offset, data);
      WriteAtCache(offset, data, false);
    }

    method AppendData(data: seq<byte>, env: Env) returns (r: Result)
      requires Valid()
      modifies this, Repr
      ensures Valid() && fresh(Repr - old(Repr))
      ensures AppendSpec(old(View()), data, env, r, View())
    {
      hide Caches, Holds, IsPartMap, IncompleteLoaded, CacheAfterWrite, RowsOk;
      r := LoadFileIntoCache(env.getFile);
      if r.Err? {
        return;
      }
      ghost var opts, m := file.value.opts, map[];
      r, m := LoadForWrite(file.value.size, |data|, env.getParts);
      if r.Err? {
        return;
      }
      WriteAtKeepsLog(opts, cached, db.rows, log, |log|, data, m);
      AppendLog(opts, log, cached.Keys, data);
      log := log + data;
      WriteAtCache(file.value.size, data, false);
    }

    /** loadDataPartsForRead: the cached buffer of each part if there is one, else a copy of its row. */
    method LoadDataPartsForRead(parts: set<nat>, ok: bool) returns (r: Option<map<nat, DataCacheEntry>>)
      requires Valid()
      ensures r.None? ==> !ok
      ensures r.Some? ==> forall i :: i in r.value ==> r.value[i].data.Length == P
      ensures r.Some? ==> forall i: nat, j: nat, b: byte :: i in parts && Stored(cached, db.rows, i, j, b) ==>
        BufferHas(r.value, i, j, b)
    {
      hide Holds, NoSharing;
      if parts == {} {
        return Some(map[]);
      }
      var dbParts := PrunePartsWithCache(parts);
      var found, loaded, repr := db.GetFileParts(dbParts, ok);
      if found.None? {
        return None;
      }
      var rtn: map<nat, DataCacheEntry> := map[];
      var todo := parts;
      while todo != {}
        invariant todo <= parts
        invariant forall i :: i in rtn ==> i in dataEntries || i in found.value
        invariant forall i :: i in rtn ==> rtn[i] == if i in dataEntries then dataEntries[i] else found.value[i]
        invariant forall i :: i in parts && i !in todo && (i in dataEntries || i in found.value) ==> i in rtn
        decreases todo
      {
        var i :| i in todo;
        if i in dataEntries {
          rtn := rtn[i := dataEntries[i]];
        } else if i in found.value {
          rtn := rtn[i := found.value[i]];
        }
        todo := todo - {i};
      }
      forall i: nat, j: nat, b: byte | i in parts && Stored(cached, db.rows, i, j, b)
        ensures BufferHas(rtn, i, j, b)
      {
        if i in dataEntries {
          assert IsBuffer(dataEntries[i], i, cached[i]);
        } else {
          assert IsBuffer(found.value[i], i, loaded[i]);
          assert loaded[i].bytes[..|db.rows[i]|][j] == b;
        }
      }
      return Some(rtn);
    }

    /** readAt, for an offset that is zero if the whole file is read */
    method ReadAtCache(offset: int, size: nat, readFull: bool, env: Env) returns (r: ReadResult)
      requires Valid() && (readFull ==> offset == 0)
      ensures ReadSpec(View(), offset, if readFull then |log| else size, env, r)
    {
      hide Caches, Holds, IsPartMap, ReadSpec;
      if offset < 0 {
        ReadFails(View(), offset, if readFull then |log| else size, env, ReadErr(BadOffset));
        return ReadErr(BadOffset);
      }
      var err, f := LoadFileForRead(env.getFile);
      if err.Err? {
        ReadFails(View(), offset, if readFull then |log| else size, env, ReadErr(err.error));
        return ReadErr(err.error);
      }
      var off, amt: int := offset, size;
      if readFull {
        amt := f.size - off;
      }
      if off + amt > f.size {
        amt := f.size - off;
      }
      if f.opts.circular {
        var realDataOffset := 0;
        if f.size > f.opts.maxSize {
          realDataOffset := f.size - f.opts.maxSize;
        }
        if off < realDataOffset {
          var truncateAmt := realDataOffset - off;
          off, amt := off + truncateAmt, amt - truncateAmt;
        }
        if amt <= 0 {
          r := ReadOk(realDataOffset, []);
          ReadClipped(f.opts, log, durable, flushErrors, CountsNow(), offset, if readFull then |log| else size, env,
            off, amt, r);
          return;
        }
      }
      r := ReadParts(f.opts, off, amt, env.getParts);
      ReadClipped(f.opts, log, durable, flushErrors, CountsNow(), offset, if readFull then |log| else size, env, off,
        amt, r);
    }

    /** The part of readAt after the range has been clipped. */
    method ReadParts(opts: Opts, offset: nat, size: int, ok: bool) returns (r: ReadResult)
      requires Valid() && db.header.Some? && opts == db.header.value.opts
      requires size >= 0 ==> DataStart(opts, |log|) <= offset && offset + size <= |log|
      ensures
        if r == ReadErr(DbError) then !ok
        else if size < 0 then r == ReadPanic
        else r == ReadOk(offset, log[offset..offset + size])
    {
      hide Holds, IsPartMap, Caches;
      var partMap := ComputePartMap(opts, offset, size);
      var entries := LoadDataPartsForRead(partMap.Keys, ok);
      if entries.None? {
        return ReadErr(DbError);
      }
      if size < 0 {
        return ReadPanic;
      }
      var data := ReadLoop(opts, offset, size, partMap, entries.value);
      return ReadOk(offset, data);
    }

    /** The loop of readAt. */
    method ReadLoop(opts: Opts, offset: nat, amt: nat, partMap: map<nat, int>, entries: map<nat, DataCacheEntry>)
        returns (rtnData: seq<byte>)
      requires Valid() && db.header.Some? && opts == db.header.value.opts
      requires DataStart(opts, |log|) <= offset && offset + amt <= |log|
      requires IsPartMap(opts, offset, offset + amt, partMap)
      requires forall i :: i in entries ==> entries[i].data.Length == P
      requires forall i: nat, j: nat, b: byte :: i in partMap && Stored(cached, db.rows, i, j, b) ==>
        BufferHas(entries, i, j, b)
      ensures rtnData == log[offset..offset + amt]
    {
      hide Caches, IsPartMap, BufferHas, Stored;
      rtnData := [];
      var amtLeftToRead, curReadOffset := amt, offset;
      while amtLeftToRead > 0
        invariant 0 <= amtLeftToRead && amtLeftToRead + curReadOffset == offset + amt && offset <= curReadOffset
        invariant rtnData == log[offset..curReadOffset]
      {
        var partIdx, partOffset := Part(opts, curReadOffset), OffInPart(curReadOffset);
        var amtToRead := ChunkLen(curReadOffset, amtLeftToRead);
        var partData: seq<byte> := seq(P, _ => 0);
        if partIdx in entries {
          partData := entries[partIdx].data[..];
        }
        var piece := partData[partOffset..partOffset + amtToRead];
        PieceIsLog(opts, cached, db.rows, log, partMap, entries, offset, amt, curReadOffset, amtLeftToRead);
        assert piece == log[curReadOffset..curReadOffset + amtToRead];
        SlicesJoin(log, offset, curReadOffset, curReadOffset + amtToRead);
        rtnData := rtnData + piece;
        amtLeftToRead, curReadOffset := amtLeftToRead - amtToRead, curReadOffset + amtToRead;
      }
    }

    method ReadAt(offset: int, size: int, env: Env) returns (r: ReadResult)
      requires Valid()
      ensures ReadSpec(View(), offset, size, env, r)
    {
      if size < 0 {
        return ReadErr(BadSize);
      }
      r := ReadAtCache(offset, size, false, env);
    }

    method ReadFile(env: Env) returns (r: ReadResult)
      requires Valid()
      ensures ReadFileSpec(View(), env, r)
    {
      hide Holds, RowsOk;
      r := ReadAtCache(0, 0, true, env);
    }

    /** compactIJson */
    method Compact(compact: Compactor, env: Env) returns (r: Result)
      requires Valid() && file.Some? && file.value.opts.ijson
      modifies this, Repr
      ensures Valid() && fresh(Repr - old(Repr))
      ensures CompactSpec(old(View()), compact, env, r, View())
    {
      hide Caches, Holds, RowsOk;
      var full := ReadAtCache(0, 0, true, env);
      if full.ReadErr? {
        assert full.readError == DbError;
        return Err(CompactDbError);
      }
      assert full == ReadOk(0, log);
      var newBytes := compact(full.data);
      if newBytes.None? {
        return Err(BadIJson);
      }
      WriteAtCache(0, newBytes.value, true);
      ReplaceHolds(file.value.opts, db.rows, newBytes.value);
      log := newBytes.value;
      return Ok;
    }

    method CompactIJson(compact: Compactor, env: Env) returns (r: Result)
      requires Valid()
      modifies this, Repr
      ensures Valid() && fresh(Repr - old(Repr))
      ensures CompactIJsonSpec(old(View()), compact, env, r, View())
    {
      hide Caches, Holds, CompactSpec;
      r := LoadFileIntoCache(env.getFile);
      if r.Err? {
        return;
      }
      if !file.value.opts.ijson {
        return Err(NotIJson);
      }
      r := Compact(compact, env);
    }

    /** metaIncrement, of both counts */
    method CountCommand(len: nat)
      requires Valid() && file.Some?
      modifies this`file
      ensures Valid() && file.Some?
      ensures old(View()).Present? && View() == old(View()).(counts := CountsAfter(old(CountsNow()), len))
    {
      var c := file.value.counts;
      file := Some(file.value.(counts := Counts(c.numCmds + 1, c.incBytes + len + 1)));
    }

    /** A marshalled command is never empty. */
    method AppendIJson(data: seq<byte>, compact: Compactor, env: Env, compactEnv: Env)
        returns (r: Result)
      requires Valid() && data != []
      modifies this, Repr
      ensures Valid() && fresh(Repr - old(Repr))
      ensures AppendIJsonSpec(old(View()), compact, data, env, compactEnv, r, View())
    {
      hide Caches, Holds, CompactSpec, IsPartMap, IncompleteLoaded;
      r := LoadFileIntoCache(env.getFile);
      if r.Err? {
        return;
      }
      if !file.value.opts.ijson {
        return Err(NotIJson);
      }
      ghost var m;
      r, m := LoadForWrite(file.value.size, |data|, env.getParts);
      if r.Err? {
        return;
      }
      var oldSize := file.value.size;
      AppendLineInCache(data, m);
      if oldSize == 0 {
        return Ok;
      }
      CountCommand(|data|);
      var f := file.value;
      if f.counts.numCmds > IJSON_HIGH_COMMANDS || f.counts.incBytes >= IJSON_HIGH_RATIO * f.size ||
        (f.counts.numCmds > IJSON_LOW_COMMANDS && f.counts.incBytes >= IJSON_LOW_RATIO * f.size)
      {
        r := Compact(compact, compactEnv);
      } else {
        r := Ok;
      }
    }

    /** The two writes of AppendIJson; the second one loads nothing. */
    method AppendLineInCache(data: seq<byte>, ghost m: map<nat, int>)
      requires Valid() && file.Some? && !file.value.opts.circular && data != []
      requires IsPartMap(file.value.opts, |log|, |log| + |data|, m) && IncompleteLoaded(cached, db.rows, m)
      modifies this, Repr
      ensures Valid() && fresh(Repr - old(Repr)) && file.Some?
      ensures old(View()).Present? && View() == old(View()).(log := old(log) + data + [NEWLINE])
    {
      hide Caches, Holds, IsPartMap, IncompleteLoaded, CacheAfterWrite, RowsOk;
      ghost var opts := file.value.opts;
      WriteAtKeepsLog(opts, cached, db.rows, log, |log|, data, m);
      AppendLog(opts, log, cached.Keys, data);
      LastByteCached(opts, cached, |log|, data);
      WriteAtCache(file.value.size, data, false);
      log := log + data;
      AppendNewline();
    }

    /** The second write of AppendIJson, into the part that holds the last byte written by the first */
    method AppendNewline()
      requires Valid() && file.Some? && !file.value.opts.circular && |log| > 0 &&
        Part(file.value.opts, |log| - 1) in cached
      modifies this, Repr
      ensures Valid() && fresh(Repr - old(Repr)) && file.Some?
      ensures old(View()).Present? && View() == old(View()).(log := old(log) + [NEWLINE])
    {
      hide Caches, Holds, CacheAfterWrite;
      NextByteHolds(file.value.opts, cached, db.rows, log, NEWLINE);
      WriteAtCache(file.value.size, [NEWLINE], false);
      log := log + [NEWLINE];
    }
  }

  lemma SlicesJoin(s: seq<byte>, lo: nat, mid: nat, hi: nat)
    requires lo <= mid <= hi <= |s|
    ensures s[lo..mid] + s[mid..hi] == s[lo..hi]
  {
  }

  lemma NothingCached(repr: set<object>)
    ensures Caches(map[], map[], repr) && RowsOk(map[])
  {
  }

  lemma RowsMerge(c: map<nat, Row>, loaded: map<nat, Row>)
    requires RowsOk(c) && RowsOk(loaded)
    ensures RowsOk(c + loaded)
  {
  }

  lemma WritePartsUnfold(opts: Opts, c: map<nat, Row>, offset: nat, data: seq<byte>)
    requires ValidOpts(opts) && RowsOk(c) && data != []
    ensures var n := ChunkLen(offset, |data|);
      WriteParts(opts, c, offset, data) == WriteParts(opts, FirstChunk(opts, c, offset, data), offset + n, data[n..])
  {
  }

  ghost predicate BufferHas(entries: map<nat, DataCacheEntry>, i: nat, j: nat, b: byte)
    reads set k | k in entries :: entries[k].data
  {
    i in entries && j < entries[i].data.Length && entries[i].data[j] == b
  }

  /** The piece that one turn of the loop of readAt takes from a part is the log at that place. */
  lemma {:induction false} PieceIsLog(opts: Opts, c: map<nat, Row>, rows: map<nat, seq<byte>>, log: seq<byte>,
                                      partMap: map<nat, int>,
                                      entries: map<nat, DataCacheEntry>, offset: nat, amt: nat, cur: nat, left: nat)
    requires ValidOpts(opts) && Holds(opts, c, rows, log)
    requires DataStart(opts, |log|) <= offset <= cur && cur + left == offset + amt <= |log| && left > 0
    requires IsPartMap(opts, offset, offset + amt, partMap)
    requires forall i: nat, j: nat, b: byte :: i in partMap && Stored(c, rows, i, j, b) ==> BufferHas(entries, i, j, b)
    ensures var d, n := OffInPart(cur), ChunkLen(cur, left);
      && Part(opts, cur) in entries
      && d + n <= entries[Part(opts, cur)].data.Length
      && entries[Part(opts, cur)].data[d..d + n] == log[cur..cur + n]
  {
    hide IsPartMap;
    var i, d, n := Part(opts, cur), OffInPart(cur), ChunkLen(cur, left);
    assert Touches(opts, offset, amt, i);
    TouchedIsMapped(opts, offset, 0, amt, partMap, i);
    forall o: nat | cur <= o < cur + n
      ensures BufferHas(entries, i, d + (o - cur), log[o])
    {
      ChunkPlaces(opts, cur, left, o);
      assert Stored(c, rows, Part(opts, o), OffInPart(o), log[o]);
    }
    assert BufferHas(entries, i, d, log[cur]);
    assert BufferHas(entries, i, d + (cur + n - 1 - cur), log[cur + n - 1]);
    SliceIsLog(entries, i, d, n, log, cur);
  }

  lemma SliceIsLog(entries: map<nat, DataCacheEntry>, i: nat, d: nat, n: nat, log: seq<byte>, cur: nat)
    requires i in entries && d + n <= entries[i].data.Length && cur + n <= |log|
    requires forall o: nat :: cur <= o < cur + n ==> BufferHas(entries, i, d + (o - cur), log[o])
    ensures entries[i].data[d..d + n] == log[cur..cur + n]
  {
  }

  /** The clipping of readAt, as an intersection of the requested range with what the file still has. */
  lemma {:induction false} ReadClipped(opts: Opts, log: seq<byte>, durable: seq<byte>, fails: nat, counts: Counts,
                                       offset: nat, size: nat, env: Env, off: nat, amt: int, r: ReadResult)
    requires ValidOpts(opts)
    requires off == Max(offset, DataStart(opts, |log|))
    requires amt == Min(offset + size, |log|) - off
    requires
      if r == ReadErr(DbError) then !env.getParts
      else if opts.circular && amt <= 0 then r == ReadOk(DataStart(opts, |log|), [])
      else if amt < 0 then r == ReadPanic
      else r == ReadOk(off, log[off..off + amt])
    ensures ReadSpec(Present(opts, log, durable, fails, counts), offset, size, env, r)
  {
  }

  lemma ReadFails(f: Abs, offset: int, size: nat, env: Env, r: ReadResult)
    requires f.Present? ==> ValidOpts(f.opts)
    requires
      if offset < 0 then r == ReadErr(BadOffset)
      else (r == ReadErr(DbError) && !env.getFile) || (r == ReadErr(NotExist) && f.Absent?)
    ensures ReadSpec(f, offset, size, env, r)
  {
  }

  lemma RoundedUp(opts: Opts)
    requires opts.maxSize >= 0
    ensures var m := Mul(Div(opts.maxSize, P) + 1, P); m > 0 && Mod(m, P) == 0
  {
    DivUnique(Mul(Div(opts.maxSize, P) + 1, P), Div(opts.maxSize, P) + 1, P);
  }

  /** The size stored for a ring is the least whole number of parts that is not below what was asked for. */
  lemma RoundedToParts(opts: Opts)
    requires OptsAccepted(opts) && opts.circular
    ensures var m := StoredOpts(opts).maxSize;
      && StoredOpts(opts) == opts.(maxSize := m)
      && opts.maxSize <= m < opts.maxSize + P && m % P == 0
  {
    var m := StoredOpts(opts).maxSize;
    DivMod(opts.maxSize, P);
    RoundedUp(opts);
    BuiltIn(m, P);
  }

  lemma FlushFits(rows: map<nat, seq<byte>>, dirty: map<nat, Row>, replace: bool)
    requires RowsOk(dirty)
    requires forall i :: i in rows ==> |rows[i]| <= P
    ensures forall i :: i in RowsAfterFlush(rows, dirty, replace) ==> |RowsAfterFlush(rows, dirty, replace)[i]| <= P
  {
  }

  /** Loading the incomplete parts does not change whether a straddling write is lossy. */
  lemma {:induction false} LossBeforeLoading(opts: Opts, size: nat, before: set<nat>, after: set<nat>, offset: nat,
                                             len: nat, m: map<nat, int>)
    requires ValidOpts(opts) && IsPartMap(opts, offset, offset + len, m)
    requires before <= after
    requires forall i :: i in after ==> i in before || (i in m && m[i] != P)
    ensures LosesHead(opts, size, before, offset, len) <==> LosesHead(opts, size, after, offset, len)
  {
    hide IsPartMap;
    if LosesHead(opts, size, before, offset, len) {
      HeadIsComplete(opts, size, before, offset, len, m);
    }
  }
}
