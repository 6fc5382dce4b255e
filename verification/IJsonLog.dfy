/** Logs of ijson commands: replay, parsing and compaction (pkg/ijson/ijson.go: ApplyCommand, ApplyCommands,
    ParseIJson, CompactIJson), and what compaction does to the file that holds the log. */
module IJsonLog {
  import opened Wrappers
  import opened FileLayout
  import opened FileSpec
  import opened IJson
  import opened IJsonTs
  import opened IJsonDelete

  datatype Command = SetCommand(path: Path, data: Json) | DelCommand(path: Path)
    | AppendCommand(path: Path, data: Json) | Unknown

  /** What every caller sees of a command or a replay: a document, an error, or an index out of range. */
  datatype Outcome = Doc(doc: Json) | Failed | Panicked

  function ApplyCommand(data: Json, c: Command): Outcome {
    match c
    case SetCommand(path, v) =>
      var r := SetPath(data, path, v, Replace, false);
      if r.err.None? then Doc(r.doc) else Failed
    case AppendCommand(path, v) =>
      var r := SetPath(data, path, v, Append, false);
      if r.err.None? then Doc(r.doc) else Failed
    case DelCommand(path) =>
      var r := Remove(data, path);
      if r.OutOfRange? then Panicked else if r.err.None? then Doc(r.doc) else Failed
    case Unknown => Failed
  }

  /** The document after all commands, or how the first one that has none ends. */
  function Replay(data: Json, cs: seq<Command>): Outcome
    decreases |cs|
  {
    if cs == [] then Doc(data)
    else
      var r := ApplyCommand(data, cs[0]);
      if r.Doc? then Replay(r.doc, cs[1..]) else r
  }

  method ApplyCommands(data: Json, commands: seq<Command>) returns (r: Outcome)
    ensures r == Replay(data, commands)
  {
    hide ApplyCommand;
    r := Doc(data);
    for i := 0 to |commands|
      invariant r.Doc? && Replay(data, commands) == Replay(r.doc, commands[i..])
    {
      r := ApplyCommand(r.doc, commands[i]);
      if !r.Doc? {
        return;
      }
    }
  }

  /** What the commands mean to a reader of their path: a set is read back, an append adds at the end of an array, and a
      delete leaves nothing, on a walk over containers that are there; other commands fail. */
  lemma CommandReads(d: Json, p: Path, v: Json)
    ensures var r := ApplyCommand(d, SetCommand(p, v)); r.Doc? ==> GetPath(r.doc, p) == Value(v)
    ensures var was, r := GetPath(d, p), ApplyCommand(d, AppendCommand(p, v));
      was.Value? ==>
        match was.v
        case Arr(xs) => r.Doc? && GetPath(r.doc, p) == Value(Arr(xs + [v]))
        case Null => r.Doc? ==> GetPath(r.doc, p) == Value(Arr([v]))
        case _ => r == Failed
    ensures CleanWalk(d, p) ==> var r := ApplyCommand(d, DelCommand(p)); r.Doc? && Delete(d, p) == Some(r.doc)
    ensures ApplyCommand(d, Unknown) == Failed
  {
    hide SetPath, GetPath, Delete, CleanWalk, Remove;
    var r := SetPath(d, p, v, Replace, false);
    if r.err.None? {
      GetAfterSet(d, p, v, Replace, false);
    }
    if GetPath(d, p).Value? {
      AppendReads(d, p, v);
    }
    if CleanWalk(d, p) {
      AgreeIffClean(d, p);
    }
  }

  lemma {:induction false} ReplayConcat(data: Json, a: seq<Command>, b: seq<Command>)
    ensures Replay(data, a + b) == if Replay(data, a).Doc? then Replay(Replay(data, a).doc, b) else Replay(data, a)
    decreases |a|
  {
    hide ApplyCommand;
    if a == [] {
      assert a + b == b;
    } else {
      assert (a + b)[1..] == a[1..] + b;
      var r := ApplyCommand(data, a[0]);
      if r.Doc? {
        ReplayConcat(r.doc, a[1..], b);
      }
    }
  }

  /** Replacing any prefix of a log by one set of the root, and replaying the rest from any document, gives what
      the whole log gives. */
  lemma {:induction false} CompactThenReplay(start: Json, a: seq<Command>, b: seq<Command>)
    requires Replay(Null, a).Doc?
    ensures Replay(start, [SetCommand([], Replay(Null, a).doc)] + b) == Replay(Null, a + b)
  {
    var root := SetCommand([], Replay(Null, a).doc);
    ReplayConcat(Null, a, b);
    assert ([root] + b)[1..] == b;
  }

  // ---------------------------------------------------------------- commands as text

  /** A command as it comes back from JSON: every array index is a float64. */
  function PartThroughJson(p: Part): Part {
    if p.Idx? then Other else p
  }

  function PathThroughJson(p: Path): (r: Path)
    ensures |r| == |p| && forall i :: 0 <= i < |p| ==> r[i] == PartThroughJson(p[i])
  {
    seq(|p|, i requires 0 <= i < |p| => PartThroughJson(p[i]))
  }

  function ThroughJson(c: Command): Command {
    match c
    case SetCommand(path, v) => SetCommand(PathThroughJson(path), v)
    case AppendCommand(path, v) => AppendCommand(PathThroughJson(path), v)
    case DelCommand(path) => DelCommand(PathThroughJson(path))
    case Unknown => Unknown
  }

  predicate IndexFree(c: Command) {
    c.Unknown? || forall i :: 0 <= i < |c.path| ==> !c.path[i].Idx?
  }

  /** json.Marshal and json.Unmarshal */
  datatype Codec = Codec(encode: Command -> seq<byte>, decode: seq<byte> -> Option<Command>)

  /** An encoded command is one non-empty line that decodes to the command as JSON has it, and two encoded
      commands on one line do not decode. */
  ghost predicate IsCodec(codec: Codec) {
    && (forall c :: Encodes(codec, c))
    && (forall a, b :: codec.decode(codec.encode(a) + codec.encode(b)).None?)
  }

  ghost predicate Encodes(codec: Codec, c: Command) {
    codec.encode(c) != [] && NoNewline(codec.encode(c)) && codec.decode(codec.encode(c)) == Some(ThroughJson(c))
  }

  /** Where the first newline is, or the length of the text. */
  function IndexByte(s: seq<byte>): (n: nat)
    ensures n <= |s| && (n < |s| ==> s[n] == NEWLINE) && forall i :: 0 <= i < n ==> s[i] != NEWLINE
  {
    if s == [] || s[0] == NEWLINE then 0 else 1 + IndexByte(s[1..])
  }

  predicate NoNewline(s: seq<byte>) {
    forall i :: 0 <= i < |s| ==> s[i] != NEWLINE
  }

  /** The lines of a text; a last line may lack its newline. */
  function Lines(s: seq<byte>): seq<seq<byte>>
    decreases |s|
  {
    if s == [] then []
    else
      var n := IndexByte(s);
      if n == |s| then [s] else [s[..n]] + Lines(s[n + 1..])
  }

  function DecodeAll(codec: Codec, lines: seq<seq<byte>>): Option<seq<Command>> {
    if lines == [] then Some([])
    else
      var c, rest := codec.decode(lines[0]), DecodeAll(codec, lines[1..]);
      if c.Some? && rest.Some? then Some([c.value] + rest.value) else None
  }

  method ParseIJson(codec: Codec, fullData: seq<byte>) returns (commands: Option<seq<Command>>)
    ensures commands == DecodeAll(codec, Lines(fullData))
  {
    hide Lines, IndexByte, DecodeAll;
    var data, cs := fullData, [];
    ghost var done: seq<seq<byte>> := [];
    NoLines(codec);
    assert done + Lines(data) == Lines(data);
    while |data| > 0
      invariant Lines(fullData) == done + Lines(data) && DecodeAll(codec, done) == Some(cs)
      decreases |data|
    {
      LinesStep(data);
      var nlIdx := IndexByte(data);
      var cmdData := data[..nlIdx];
      data := if nlIdx == |data| then [] else data[nlIdx + 1..];
      ParseStep(codec, done, cmdData, Lines(data));
      done := done + [cmdData];
      var c := codec.decode(cmdData);
      if c.None? {
        return None;
      }
      cs := cs + [c.value];
    }
    assert data == [] && done + [] == done;
    return Some(cs);
  }

  lemma ParseStep(codec: Codec, done: seq<seq<byte>>, line: seq<byte>, rest: seq<seq<byte>>)
    requires DecodeAll(codec, done).Some?
    ensures done + ([line] + rest) == done + [line] + rest
    ensures var c := codec.decode(line);
            if c.None? then DecodeAll(codec, done + ([line] + rest)).None?
            else DecodeAll(codec, done + [line]) == Some(DecodeAll(codec, done).value + [c.value])
  {
    hide DecodeAll;
    DecodeConcat(codec, done + [line], rest);
    DecodeConcat(codec, done, [line]);
    DecodeOne(codec, line);
  }

  lemma {:induction false} DecodeConcat(codec: Codec, a: seq<seq<byte>>, b: seq<seq<byte>>)
    ensures DecodeAll(codec, a + b) ==
            var x, y := DecodeAll(codec, a), DecodeAll(codec, b);
            if x.Some? && y.Some? then Some(x.value + y.value) else None
  {
    if a == [] {
      assert a + b == b;
      assert DecodeAll(codec, b).Some? ==> [] + DecodeAll(codec, b).value == DecodeAll(codec, b).value;
    } else {
      assert (a + b)[1..] == a[1..] + b && (a + b)[0] == a[0];
      DecodeConcat(codec, a[1..], b);
      var x, y := DecodeAll(codec, a[1..]), DecodeAll(codec, b);
      if codec.decode(a[0]).Some? && x.Some? && y.Some? {
        assert [codec.decode(a[0]).value] + (x.value + y.value) == [codec.decode(a[0]).value] + x.value + y.value;
      }
    }
  }

  lemma DecodeOne(codec: Codec, line: seq<byte>)
    ensures DecodeAll(codec, [line]) == if codec.decode(line).Some? then Some([codec.decode(line).value]) else None
  {
    var rest := [line][1..];
    assert rest == [];
    assert codec.decode(line).Some? ==> [codec.decode(line).value] + [] == [codec.decode(line).value];
  }

  lemma LinesEmpty()
    ensures Lines([]) == []
  {
  }

  lemma NoLines(codec: Codec)
    ensures Lines([]) == [] && DecodeAll(codec, []) == Some([])
  {
  }

  /** Every line of a text that ends with a newline is complete. */
  predicate Terminated(s: seq<byte>) {
    s == [] || s[|s| - 1] == NEWLINE
  }

  lemma {:induction false} LinesConcat(a: seq<byte>, b: seq<byte>)
    requires Terminated(a)
    ensures Lines(a + b) == Lines(a) + Lines(b)
    decreases |a|
  {
    hide Lines, IndexByte;
    assert Lines([]) == [] by { LinesEmpty(); }
    if a == [] {
      assert a + b == b;
    } else {
      var n := IndexByte(a);
      assert a[|a| - 1] == NEWLINE;
      LinesConcat(a[n + 1..], b);
      LinesCut(a, b, n);
    }
  }

  lemma LinesCut(a: seq<byte>, b: seq<byte>, n: nat)
    requires n < |a| && n == IndexByte(a)
    ensures Lines(a) == [a[..n]] + Lines(a[n + 1..]) && Lines(a + b) == [a[..n]] + Lines(a[n + 1..] + b)
  {
    hide Lines, IndexByte;
    CutConcat(a, b, n);
    FirstNewline(a + b, n);
    LinesStep(a);
    LinesStep(a + b);
  }

  lemma CutConcat(a: seq<byte>, b: seq<byte>, n: nat)
    requires n < |a|
    ensures (a + b)[..n] == a[..n] && (a + b)[n] == a[n] && (a + b)[n + 1..] == a[n + 1..] + b
  {
  }

  lemma FirstNewline(s: seq<byte>, n: nat)
    requires n < |s| && s[n] == NEWLINE && NoNewline(s[..n])
    ensures IndexByte(s) == n
  {
    assert forall i :: 0 <= i < n ==> s[i] == s[..n][i];
  }

  lemma OneLine(line: seq<byte>)
    requires line != [] && NoNewline(line)
    ensures Lines(line) == [line] && Lines(line + [NEWLINE]) == [line]
  {
    var s := line + [NEWLINE];
    assert s[..|line|] == line;
    FirstNewline(s, |line|);
    assert s[|line| + 1..] == [];
  }

  /** The first line and the rest, as both loops below take a text apart. */
  lemma LinesStep(s: seq<byte>)
    requires s != []
    ensures var n := IndexByte(s); Lines(s) == [s[..n]] + Lines(if n == |s| then [] else s[n + 1..])
  {
    var n := IndexByte(s);
    if n == |s| {
      assert s[..n] == s && Lines([]) == [] && [s] + [] == [s];
    }
  }

  /** The text that appending the commands one by one to an empty file leaves. */
  function Text(codec: Codec, cs: seq<Command>): seq<byte> {
    if cs == [] then [] else codec.encode(cs[0]) + [NEWLINE] + Text(codec, cs[1..])
  }

  function AllThroughJson(cs: seq<Command>): seq<Command> {
    if cs == [] then [] else [ThroughJson(cs[0])] + AllThroughJson(cs[1..])
  }

  /** Parsing the text of commands gives the commands back as JSON has them. */
  lemma {:induction false} ParseText(codec: Codec, cs: seq<Command>)
    requires IsCodec(codec)
    ensures DecodeAll(codec, Lines(Text(codec, cs))) == Some(AllThroughJson(cs))
  {
    if cs != [] {
      var line := codec.encode(cs[0]);
      assert Encodes(codec, cs[0]);
      OneLine(line);
      LinesConcat(line + [NEWLINE], Text(codec, cs[1..]));
      ParseText(codec, cs[1..]);
      DecodeOne(codec, line);
      DecodeConcat(codec, [line], Lines(Text(codec, cs[1..])));
    }
  }

  /** The round trip is exact if and only if no path holds an array index. */
  lemma {:induction false} ParseTextExactIff(codec: Codec, cs: seq<Command>)
    requires IsCodec(codec)
    ensures DecodeAll(codec, Lines(Text(codec, cs))) == Some(cs) <==> forall i :: 0 <= i < |cs| ==> IndexFree(cs[i])
  {
    ParseText(codec, cs);
    AllThroughJsonAt(cs);
    forall i | 0 <= i < |cs|
      ensures ThroughJson(cs[i]) == cs[i] <==> IndexFree(cs[i])
    {
      IndexFreeUnchanged(cs[i]);
    }
    if forall i :: 0 <= i < |cs| ==> IndexFree(cs[i]) {
      assert AllThroughJson(cs) == cs;
    }
  }

  lemma {:induction false} AllThroughJsonAt(cs: seq<Command>)
    ensures |AllThroughJson(cs)| == |cs| && forall i :: 0 <= i < |cs| ==> AllThroughJson(cs)[i] == ThroughJson(cs[i])
  {
    if cs != [] {
      AllThroughJsonAt(cs[1..]);
    }
  }

  lemma IndexFreeUnchanged(c: Command)
    ensures ThroughJson(c) == c <==> IndexFree(c)
  {
    if !c.Unknown? {
      if IndexFree(c) {
        assert PathThroughJson(c.path) == c.path;
      } else {
        var i :| 0 <= i < |c.path| && c.path[i].Idx?;
        assert PathThroughJson(c.path)[i] != c.path[i];
      }
    }
  }

  /** A set or append with an array index in its path always fails when it is replayed from text. */
  lemma {:induction false} IndexNeverReplays(d: Json, c: Command)
    requires (c.SetCommand? || c.AppendCommand?) && !IndexFree(c)
    ensures ApplyCommand(d, ThroughJson(c)) == Failed
  {
    var i :| 0 <= i < |c.path| && c.path[i].Idx?;
    assert PathThroughJson(c.path)[i] == Other;
    BadPartFails(d, PathThroughJson(c.path), i, c.data, if c.SetCommand? then Replace else Append);
  }

  lemma {:induction false} BadPartFails(d: Json, p: Path, i: nat, v: Json, combine: Combine)
    requires i < |p| && p[i].Other?
    ensures SetPath(d, p, v, combine, false).err.Some?
    decreases i
  {
    SetStep(d, p, v, combine, false);
    if i > 0 && Fits(d, p[0]) {
      BadPartFails(Child(d, p[0]), p[1..], i - 1, v, combine);
    }
  }

  /** A delete of an array element replayed from text deletes the array, and counts as a success. */
  lemma {:induction false} IndexDeleteDropsArray(fields: map<string, Json>, k: string, i: nat)
    requires k in fields && !fields[k].Null?
    ensures ApplyCommand(Obj(fields), ThroughJson(DelCommand([Key(k), Idx(i)]))) == Doc(OrNull(fields - {k}))
  {
    assert PathThroughJson([Key(k), Idx(i)]) == [Key(k)] + [Other];
    WrongKindDropsEntry(fields, k, [Other]);
  }

  // ---------------------------------------------------------------- compaction

  datatype Compacted = Compacted(bytes: seq<byte>) | CompactFailed | CompactPanicked

  function ReplayLines(codec: Codec, data: Json, lines: seq<seq<byte>>): Outcome
    decreases |lines|
  {
    if lines == [] then Doc(data)
    else
      var c := codec.decode(lines[0]);
      if c.None? then Failed
      else
        var r := ApplyCommand(data, c.value);
        if r.Doc? then ReplayLines(codec, r.doc, lines[1..]) else r
  }

  /** The document that a log stands for. */
  function ReplayLog(codec: Codec, log: seq<byte>): Outcome {
    ReplayLines(codec, Null, Lines(log))
  }

  lemma {:induction false} ReplayLinesConcat(codec: Codec, data: Json, a: seq<seq<byte>>, b: seq<seq<byte>>)
    ensures ReplayLines(codec, data, a + b) ==
            var r := ReplayLines(codec, data, a); if r.Doc? then ReplayLines(codec, r.doc, b) else r
    decreases |a|
  {
    hide ApplyCommand;
    if a == [] {
      assert a + b == b;
    } else {
      assert (a + b)[1..] == a[1..] + b;
      var c := codec.decode(a[0]);
      if c.Some? && ApplyCommand(data, c.value).Doc? {
        ReplayLinesConcat(codec, ApplyCommand(data, c.value).doc, a[1..], b);
      }
    }
  }

  /** Replaying line by line is parsing the log and replaying its commands. */
  lemma {:induction false} ReplayLinesIsReplay(codec: Codec, data: Json, lines: seq<seq<byte>>)
    requires DecodeAll(codec, lines).Some?
    ensures ReplayLines(codec, data, lines) == Replay(data, DecodeAll(codec, lines).value)
    decreases |lines|
  {
    hide ApplyCommand;
    if lines != [] {
      var c := codec.decode(lines[0]).value;
      assert DecodeAll(codec, lines).value[1..] == DecodeAll(codec, lines[1..]).value;
      if ApplyCommand(data, c).Doc? {
        ReplayLinesIsReplay(codec, ApplyCommand(data, c).doc, lines[1..]);
      }
    }
  }

  /** What CompactIJson returns for a log that stands for a document or for none. */
  function RootSet(codec: Codec, r: Outcome): Compacted {
    match r
    case Doc(d) => Compacted(codec.encode(SetCommand([], d)))
    case Failed => CompactFailed
    case Panicked => CompactPanicked
  }

  method CompactIJson(codec: Codec, fullData: seq<byte>) returns (r: Compacted)
    ensures r == RootSet(codec, ReplayLog(codec, fullData))
  {
    hide ApplyCommand, Lines, IndexByte, ReplayLines;
    var data, newData := fullData, Null;
    while |data| > 0
      invariant ReplayLines(codec, newData, Lines(data)) == ReplayLog(codec, fullData)
      decreases |data|
    {
      LinesStep(data);
      var nlIdx := IndexByte(data);
      var cmdData := data[..nlIdx];
      data := if nlIdx == |data| then [] else data[nlIdx + 1..];
      ReplayStep(codec, newData, cmdData, Lines(data));
      var c := codec.decode(cmdData);
      if c.None? {
        return CompactFailed;
      }
      var o := ApplyCommand(newData, c.value);
      if !o.Doc? {
        return if o.Failed? then CompactFailed else CompactPanicked;
      }
      newData := o.doc;
    }
    NoLines(codec);
    assert data == [];
    NoReplay(codec, newData);
    return Compacted(codec.encode(SetCommand([], newData)));
  }

  lemma NoReplay(codec: Codec, data: Json)
    ensures ReplayLines(codec, data, []) == Doc(data)
  {
  }

  lemma ReplayStep(codec: Codec, data: Json, line: seq<byte>, rest: seq<seq<byte>>)
    ensures ReplayLines(codec, data, [line] + rest) ==
            var c := codec.decode(line);
            if c.None? then Failed
            else if ApplyCommand(data, c.value).Doc? then ReplayLines(codec, ApplyCommand(data, c.value).doc, rest)
            else ApplyCommand(data, c.value)
  {
    hide ApplyCommand;
    assert ([line] + rest)[1..] == rest;
  }

  /** CompactIJson as a file's compactor. */
  function CompactorOf(codec: Codec): Compactor {
    log => match RootSet(codec, ReplayLog(codec, log)) case Compacted(bytes) => Some(bytes) case _ => None
  }

  /** AppendIJson is to compact the file after this command. */
  predicate CompactsAt(f: Abs, line: seq<byte>) {
    f.Present? && f.log != [] && ShouldCompact(CountsAfter(f.counts, |line|), |f.log| + |line| + 1)
  }

  /** Appending a command to an ijson file whose log ends with a newline appends it to the parsed log. */
  lemma {:induction false} AppendAddsCommand(codec: Codec, before: Abs, c: Command, env: Env, compactEnv: Env,
                                             after: Abs)
    requires IsCodec(codec) && before.Present? && Terminated(before.log)
    requires AppendIJsonSpec(before, CompactorOf(codec), codec.encode(c), env, compactEnv, Ok, after)
    requires !CompactsAt(before, codec.encode(c))
    ensures after.Present? && Terminated(after.log)
    ensures var was, cs := DecodeAll(codec, Lines(before.log)), DecodeAll(codec, Lines(after.log));
            cs == if was.Some? then Some(was.value + [ThroughJson(c)]) else None
  {
    var line := codec.encode(c);
    assert Encodes(codec, c);
    OneLine(line);
    LinesConcat(before.log, line + [NEWLINE]);
    assert before.log + line + [NEWLINE] == before.log + (line + [NEWLINE]);
    DecodeConcat(codec, Lines(before.log), [line]);
    DecodeOne(codec, line);
  }

  /** Compacting an ijson file keeps the document it stands for, but leaves its only line without a newline. */
  lemma {:induction false} CompactKeepsDocument(codec: Codec, before: Abs, env: Env, after: Abs)
    requires IsCodec(codec) && before.Present?
    requires CompactSpec(before, CompactorOf(codec), env, Ok, after)
    ensures after.Present? && !Terminated(after.log)
    ensures ReplayLog(codec, before.log).Doc? && ReplayLog(codec, after.log) == ReplayLog(codec, before.log)
    ensures after.log == codec.encode(SetCommand([], ReplayLog(codec, before.log).doc))
  {
    var d := ReplayLog(codec, before.log).doc;
    var line := codec.encode(SetCommand([], d));
    assert Encodes(codec, SetCommand([], d));
    OneLine(line);
    RootSetReplays(codec, Null, d, []);
    assert [line] + [] == [line];
    assert line[|line| - 1] in line;
  }

  /** An append that compacts the file succeeds only if the file stands for a document after it, which it keeps. */
  lemma {:induction false} AppendThatCompacts(codec: Codec, before: Abs, c: Command, env: Env, compactEnv: Env,
                                              after: Abs)
    requires IsCodec(codec) && before.Present? && Terminated(before.log) && CompactsAt(before, codec.encode(c))
    requires AppendIJsonSpec(before, CompactorOf(codec), codec.encode(c), env, compactEnv, Ok, after)
    ensures ReplayLog(codec, before.log).Doc? &&
      ApplyCommand(ReplayLog(codec, before.log).doc, ThroughJson(c)).Doc?
    ensures var d := ApplyCommand(ReplayLog(codec, before.log).doc, ThroughJson(c)).doc;
      after.Present? && after.log == codec.encode(SetCommand([], d)) && ReplayLog(codec, after.log) == Doc(d)
  {
    hide ApplyCommand, Lines, ShouldCompact, ThroughJson, CompactSpec, Terminated;
    var line := codec.encode(c);
    var log := before.log + line + [NEWLINE];
    CompactKeepsDocument(codec,
      before.(log := log, counts := CountsAfter(before.counts, |line|)), compactEnv, after);
    assert Encodes(codec, c);
    OneLine(line);
    LinesConcat(before.log, line + [NEWLINE]);
    assert log == before.log + (line + [NEWLINE]);
    ReplayLinesConcat(codec, Null, Lines(before.log), [line]);
    ReplayStep(codec, ReplayLog(codec, before.log).doc, line, []);
    assert [line] + [] == [line];
  }

  /** The next append to a compacted file makes it unreadable, whether it compacts the file again or not; if it is to do
      so, it reports that. */
  lemma {:induction false} AppendToCompacted(codec: Codec, before: Abs, root: Command, c: Command, env: Env,
                                             compactEnv: Env, r: Result, after: Abs)
    requires IsCodec(codec) && before.Present? && before.log == codec.encode(root)
    requires AppendIJsonSpec(before, CompactorOf(codec), codec.encode(c), env, compactEnv, r, after) && after != before
    ensures after.Present? && after.log == before.log + codec.encode(c) + [NEWLINE]
    ensures ReplayLog(codec, after.log) == Failed
    ensures r == Ok <==> !CompactsAt(before, codec.encode(c))
  {
    hide ApplyCommand, Lines, ShouldCompact, ReplayLines;
    assert Encodes(codec, root) && Encodes(codec, c);
    JoinedLineFails(codec, root, [c]);
    assert Text(codec, [c]) == codec.encode(c) + [NEWLINE];
    assert before.log + Text(codec, [c]) == before.log + codec.encode(c) + [NEWLINE];
  }

  lemma RootSetReplays(codec: Codec, data: Json, d: Json, rest: seq<seq<byte>>)
    requires IsCodec(codec)
    ensures ReplayLines(codec, data, [codec.encode(SetCommand([], d))] + rest) == ReplayLines(codec, d, rest)
  {
    var root := SetCommand([], d);
    assert Encodes(codec, root);
    assert ThroughJson(root) == root;
    assert ([codec.encode(root)] + rest)[1..] == rest;
  }

  /** Commands appended after a compaction are lost with the whole log, however valid they are: their first one
      joins the compacted line. Only with a newline in between would the file stand for what it did without the
      compaction. */
  lemma {:induction false} AppendsAfterCompaction(codec: Codec, log: seq<byte>, cs: seq<Command>)
    requires IsCodec(codec) && Terminated(log) && ReplayLog(codec, log).Doc?
    ensures var bytes := RootSet(codec, ReplayLog(codec, log)).bytes;
            && (cs != [] ==> ReplayLog(codec, bytes + Text(codec, cs)) == Failed)
            && (cs == [] ==> ReplayLog(codec, bytes + Text(codec, cs)) == ReplayLog(codec, log + Text(codec, cs)))
            && ReplayLog(codec, bytes + [NEWLINE] + Text(codec, cs)) == ReplayLog(codec, log + Text(codec, cs))
  {
    var d := ReplayLog(codec, log).doc;
    var line := codec.encode(SetCommand([], d));
    assert Encodes(codec, SetCommand([], d));
    OneLine(line);
    LinesConcat(line + [NEWLINE], Text(codec, cs));
    LinesConcat(log, Text(codec, cs));
    RootSetReplays(codec, Null, d, Lines(Text(codec, cs)));
    ReplayLinesConcat(codec, Null, Lines(log), Lines(Text(codec, cs)));
    if cs == [] {
      assert line + Text(codec, cs) == line;
      RootSetReplays(codec, Null, d, []);
      assert [line] + [] == [line];
    } else {
      JoinedLineFails(codec, SetCommand([], d), cs);
    }
  }

  lemma JoinedLineFails(codec: Codec, root: Command, cs: seq<Command>)
    requires IsCodec(codec) && cs != []
    ensures ReplayLog(codec, codec.encode(root) + Text(codec, cs)) == Failed
  {
    hide Lines, DecodeAll, ReplayLines, ApplyCommand;
    var a, b := codec.encode(root), codec.encode(cs[0]);
    var rest := Text(codec, cs[1..]);
    assert Encodes(codec, root) && Encodes(codec, cs[0]);
    assert NoNewline(a + b);
    OneLine(a + b);
    assert Terminated(a + b + [NEWLINE]);
    LinesConcat(a + b + [NEWLINE], rest);
    assert a + (b + [NEWLINE] + rest) == a + b + [NEWLINE] + rest;
    ReplayStep(codec, Null, a + b, Lines(rest));
  }
}
