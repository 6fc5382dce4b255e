/** The part buffers and the database rows of one file (blockstore_cache.go: DataCacheEntry;
    blockstore_dbops.go). A transaction either commits or leaves the rows alone; which one is an input. */
module FileDatabase {
  import opened Basics
  import opened Wrappers
  import opened FileLayout
  import opened FileParts
  import opened FileLog

  class DataCacheEntry {
    const partIdx: nat
    const data: array<byte>
    var used: nat

    ghost predicate Ok()
      reads this, data
    {
      data.Length == P && used <= P
    }

    ghost function AsRow(): (r: Row)
      requires Ok()
      reads this, data
      ensures RowOk(r)
    {
      Row(data[..], used)
    }

    /** makeDataCacheEntry */
    constructor (i: nat)
      ensures fresh(data) && Ok() && partIdx == i && AsRow() == FreshRow()
    {
      partIdx := i;
      data := new byte[P](_ => 0);
      used := 0;
      new;
      assert data[..] == seq(P, _ => 0);
    }

    /** The copy that dbGetFileParts makes of a stored row; the buffer past the row is arbitrary. */
    constructor FromRow(i: nat, bytes: seq<byte>)
      requires |bytes| <= P
      ensures fresh(data) && Ok() && partIdx == i && used == |bytes| && data[..|bytes|] == bytes
    {
      partIdx := i;
      data := new byte[P];
      used := |bytes|;
      new;
      forall k | 0 <= k < |bytes| {
        data[k] := bytes[k];
      }
    }

    method WriteToPart(offset: nat, src: seq<byte>) returns (n: nat)
      requires Ok() && offset < P
      modifies this, data
      ensures Ok()
      ensures n == Min(P - offset, |src|)
      ensures AsRow() == WriteRow(old(AsRow()), offset, src[..n])
    {
      var leftInPart := P - offset;
      n := |src|;
      if n > leftInPart {
        n := leftInPart;
      }
      if used < offset + n {
        used := offset + n;
      }
      forall k | 0 <= k < n {
        data[offset + k] := src[k];
      }
      assert data[..] == old(data[..])[..offset] + src[..n] + old(data[..])[offset + n..];
    }
  }

  /** d is the buffer of part i and holds `row`. */
  ghost predicate IsBuffer(d: DataCacheEntry, i: nat, row: Row)
    reads d, d.data
  {
    d.partIdx == i && d.Ok() && d.AsRow() == row
  }

  /** The buffers of `entries` are distinct, are among `repr`, and hold the rows `cached`. */
  ghost predicate Caches(entries: map<nat, DataCacheEntry>, cached: map<nat, Row>, repr: set<object>)
    reads repr
  {
    && entries.Keys == cached.Keys
    && (forall i :: i in entries ==>
        entries[i] in repr && entries[i].data in repr && IsBuffer(entries[i], i, cached[i]))
    && NoSharing(entries)
  }

  ghost predicate NoSharing(entries: map<nat, DataCacheEntry>) {
    forall i, j :: i in entries && j in entries && i != j ==>
      entries[i] != entries[j] && entries[i].data != entries[j].data
  }

  lemma CachesAdd(entries: map<nat, DataCacheEntry>, cached: map<nat, Row>, repr: set<object>, i: nat,
                  d: DataCacheEntry, row: Row)
    requires Caches(entries, cached, repr)
    requires i !in entries && d !in repr && d.data !in repr && IsBuffer(d, i, row)
    ensures Caches(entries[i := d], cached[i := row], repr + {d, d.data})
  {
    hide IsBuffer;
  }

  lemma CachesMerge(entries: map<nat, DataCacheEntry>, cached: map<nat, Row>, repr: set<object>,
                    entries': map<nat, DataCacheEntry>, cached': map<nat, Row>, repr': set<object>)
    requires Caches(entries, cached, repr) && Caches(entries', cached', repr')
    requires entries.Keys !! entries'.Keys && repr !! repr'
    ensures Caches(entries + entries', cached + cached', repr + repr')
  {
    hide IsBuffer;
  }

  lemma BufferBytes(d: DataCacheEntry, i: nat, row: Row)
    requires IsBuffer(d, i, row)
    ensures d.partIdx == i && d.data.Length == P && d.used == row.used <= P
    ensures d.data[..d.used] == row.bytes[..row.used]
  {
  }

  /** How a write transaction ends: the context may expire before or after it has committed. */
  datatype TxEnd = Committed | CommittedButTimedOut | TimedOut | Failed

  /** The rows of one (zone, name) in db_star_file and db_file_data. */
  class FileRows {
    var header: Option<StarFile>
    var rows: map<nat, seq<byte>>

    constructor ()
      ensures header == None && rows == map[]
    {
      header := None;
      rows := map[];
    }

    ghost predicate RowsFit()
      reads this
    {
      forall i :: i in rows ==> |rows[i]| <= P
    }

    /** dbGetFileParts: fresh buffers for the wanted parts that have a row. */
    method GetFileParts(parts: set<nat>, ok: bool)
        returns (r: Option<map<nat, DataCacheEntry>>, ghost loaded: map<nat, Row>, ghost repr: set<object>)
      requires RowsFit()
      ensures r.None? <==> parts != {} && !ok
      ensures fresh(repr)
      ensures r.Some? ==> Caches(r.value, loaded, repr) && RowsOk(loaded)
      ensures r.Some? ==> loaded.Keys == parts * rows.Keys
      ensures r.Some? ==> forall i :: i in loaded ==>
        loaded[i].used == |rows[i]| && loaded[i].bytes[..|rows[i]|] == rows[i]
    {
      loaded, repr := map[], {};
      if parts == {} {
        return Some(map[]), loaded, repr;
      }
      if !ok {
        return None, loaded, repr;
      }
      var found: map<nat, DataCacheEntry> := map[];
      var todo := parts * rows.Keys;
      while todo != {}
        invariant todo <= parts * rows.Keys
        invariant loaded.Keys == parts * rows.Keys - todo
        invariant fresh(repr) && Caches(found, loaded, repr)
        invariant forall i :: i in loaded ==>
          RowOk(loaded[i]) && loaded[i].used == |rows[i]| && loaded[i].bytes[..|rows[i]|] == rows[i]
        decreases todo
      {
        var i :| i in todo;
        var d := new DataCacheEntry.FromRow(i, rows[i]);
        CachesAdd(found, loaded, repr, i, d, d.AsRow());
        found, loaded := found[i := d], loaded[i := d.AsRow()];
        repr := repr + {d, d.data};
        todo := todo - {i};
      }
      return Some(found), loaded, repr;
    }

    /** dbWriteCacheEntry: the header, then every dirty part, after deleting all parts if replacing.
        Returns false if the file has no header row. */
    method WriteCacheEntry(file: StarFile, dirty: map<nat, DataCacheEntry>, replace: bool, ghost cached: map<nat, Row>,
                           ghost repr: set<object>)
        returns (found: bool)
      requires Caches(dirty, cached, repr) && RowsOk(cached)
      modifies this
      ensures found == old(header.Some?)
      ensures !found ==> header == old(header) && rows == old(rows)
      ensures found ==> header == Some(file.(opts := old(header).value.opts))
      ensures found ==> rows == RowsAfterFlush(old(rows), cached, replace)
    {
      if header.None? {
        return false;
      }
      hide IsBuffer, NoSharing;
      var base := if replace then map[] else rows;
      var after := base;
      var todo := dirty.Keys;
      while todo != {}
        invariant header == old(header) && rows == old(rows)
        invariant todo <= dirty.Keys
        invariant after.Keys == base.Keys + (dirty.Keys - todo)
        invariant forall i :: i in cached && i !in todo ==> after[i] == cached[i].bytes[..cached[i].used]
        invariant forall i :: i in base && (i !in dirty || i in todo) ==> after[i] == base[i]
        decreases todo
      {
        var i :| i in todo;
        var entry := dirty[i];
        BufferBytes(entry, i, cached[i]);
        assert i == entry.partIdx;  // the code panics otherwise
        after := after[entry.partIdx := entry.data[..entry.used]];
        todo := todo - {i};
      }
      AfterFlush(rows, after, cached, replace);
      header, rows := Some(header.value.(size := file.size, counts := file.counts)), after;
      return true;
    }
  }

  /** The rows once the dirty parts have been written over them. */
  function RowsAfterFlush(rows: map<nat, seq<byte>>, dirty: map<nat, Row>, replace: bool): map<nat, seq<byte>>
    requires RowsOk(dirty)
  {
    (if replace then map[] else rows) + map i | i in dirty :: dirty[i].bytes[..dirty[i].used]
  }

  lemma AfterFlush(before: map<nat, seq<byte>>, after: map<nat, seq<byte>>, dirty: map<nat, Row>, replace: bool)
    requires RowsOk(dirty)
    requires after.Keys == dirty.Keys + (if replace then map[] else before).Keys
    requires forall i :: i in dirty ==> after[i] == dirty[i].bytes[..dirty[i].used]
    requires forall i :: i in before && i in after && i !in dirty ==> after[i] == before[i]
    ensures after == RowsAfterFlush(before, dirty, replace)
  {
  }

  /** A committed flush leaves the database alone holding the log that cache and database held together; when it
      deletes the old rows, the cache alone must have held it. */
  lemma {:induction false} FlushHolds(opts: Opts, c: map<nat, Row>, rows: map<nat, seq<byte>>, log: seq<byte>,
                                      replace: bool)
    requires ValidOpts(opts) && RowsOk(c)
    requires Holds(opts, c, if replace then map[] else rows, log)
    ensures Holds(opts, map[], RowsAfterFlush(rows, c, replace), log)
    ensures Holds(opts, c, RowsAfterFlush(rows, c, replace), log)
  {
    var base := if replace then map[] else rows;
    forall o: nat | Live(opts, |log|, o)
      ensures Stored(map[], RowsAfterFlush(rows, c, replace), Part(opts, o), OffInPart(o), log[o])
      ensures Stored(c, RowsAfterFlush(rows, c, replace), Part(opts, o), OffInPart(o), log[o])
    {
      assert Stored(c, base, Part(opts, o), OffInPart(o), log[o]);
    }
  }
}
