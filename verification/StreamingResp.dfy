/** The writer that sends a response body in chunks (pkg/starapp/streamingresp.go). */
module StreamingResp {
  import opened FileLayout

  const MAX_CHUNK_SIZE: nat := 65536

  datatype Message = Header(statusCode: int, headers: map<string, string>) | Body(body: seq<byte>)

  /** http.Header: several values for a name */
  type HttpHeader = map<string, seq<string>>

  /** The first value of every name that has one */
  function FirstValues(header: HttpHeader): map<string, string> {
    map key | key in header && |header[key]| > 0 :: header[key][0]
  }

  // ---------------------------------------------------------------- cutting a text into chunks

  /** The full chunks of a text */
  function Chunks(s: seq<byte>): seq<Message>
    decreases |s|
  {
    if |s| < MAX_CHUNK_SIZE then [] else [Body(s[..MAX_CHUNK_SIZE])] + Chunks(s[MAX_CHUNK_SIZE..])
  }

  /** What is left of a text after its full chunks */
  function Rest(s: seq<byte>): (r: seq<byte>)
    ensures |r| < MAX_CHUNK_SIZE
    decreases |s|
  {
    if |s| < MAX_CHUNK_SIZE then s else Rest(s[MAX_CHUNK_SIZE..])
  }

  /** sendChunk sends no empty chunk. */
  function LastChunk(s: seq<byte>): seq<Message> {
    if s == [] then [] else [Body(s)]
  }

  function Text(messages: seq<Message>): seq<byte> {
    if messages == [] then []
    else (if messages[0].Body? then messages[0].body else []) + Text(messages[1..])
  }

  /** Messages that are full chunks, but for a last one that may be shorter but not empty */
  predicate IsCut(messages: seq<Message>) {
    forall i :: 0 <= i < |messages| ==>
      messages[i].Body? && if i < |messages| - 1 then |messages[i].body| == MAX_CHUNK_SIZE
        else 0 < |messages[i].body| <= MAX_CHUNK_SIZE
  }

  /** The chunks of a text are a cut of it: nothing is lost or reordered. */
  lemma {:induction false} ChunksAreCut(s: seq<byte>)
    ensures IsCut(Chunks(s) + LastChunk(Rest(s))) && Text(Chunks(s) + LastChunk(Rest(s))) == s
    decreases |s|
  {
    var cut, n := Chunks(s) + LastChunk(Rest(s)), MAX_CHUNK_SIZE;
    if |s| < n {
      assert cut == LastChunk(s) && (s != [] ==> cut[1..] == []);
    } else {
      ChunksAreCut(s[n..]);
      hide IsCut, Text, Rest;
      var rest := Chunks(s[n..]) + LastChunk(Rest(s[n..]));
      assert cut == [Body(s[..n])] + rest by {
        RestStep(s);
      }
      CutCons(s[..n], rest);
      assert s == s[..n] + s[n..];
    }
  }

  lemma RestStep(s: seq<byte>)
    requires |s| >= MAX_CHUNK_SIZE
    ensures Rest(s) == Rest(s[MAX_CHUNK_SIZE..])
  {
  }

  lemma CutCons(chunk: seq<byte>, rest: seq<Message>)
    requires |chunk| == MAX_CHUNK_SIZE && IsCut(rest)
    ensures IsCut([Body(chunk)] + rest) && Text([Body(chunk)] + rest) == chunk + Text(rest)
  {
    var cut := [Body(chunk)] + rest;
    assert cut[1..] == rest && forall i :: 0 < i < |cut| ==> cut[i] == rest[i - 1];
  }

  /** There is just one way to cut a text. */
  lemma {:induction false} CutIsUnique(a: seq<Message>, b: seq<Message>)
    requires IsCut(a) && IsCut(b) && Text(a) == Text(b)
    ensures a == b
    decreases |a|
  {
    TextNotEmpty(a);
    TextNotEmpty(b);
    if a != [] {
      TextNotEmpty(a[1..]);
      TextNotEmpty(b[1..]);
      var n := |a[0].body|;
      assert n == |b[0].body|;
      assert Text(a)[..n] == a[0].body && Text(b)[..n] == b[0].body;
      assert Text(a)[n..] == Text(a[1..]) && Text(b)[n..] == Text(b[1..]);
      CutIsUnique(a[1..], b[1..]);
      assert a == [a[0]] + a[1..] && b == [b[0]] + b[1..];
    }
  }

  lemma TextNotEmpty(messages: seq<Message>)
    requires IsCut(messages)
    ensures messages != [] <==> Text(messages) != []
    ensures messages != [] ==> IsCut(messages[1..]) && Text(messages) == messages[0].body + Text(messages[1..])
  {
  }

  /** Bytes that do not complete a chunk, and bytes that do exactly. */
  lemma {:induction false} AppendBytes(w: seq<byte>, x: seq<byte>)
    requires |Rest(w)| + |x| <= MAX_CHUNK_SIZE
    ensures |Rest(w)| + |x| < MAX_CHUNK_SIZE ==> Chunks(w + x) == Chunks(w) && Rest(w + x) == Rest(w) + x
    ensures |Rest(w)| + |x| == MAX_CHUNK_SIZE ==> Chunks(w + x) == Chunks(w) + [Body(Rest(w) + x)] && Rest(w + x) == []
    decreases |w|
  {
    var n := MAX_CHUNK_SIZE;
    if |w| < n {
      if |w + x| == n {
        assert (w + x)[..n] == w + x && (w + x)[n..] == [];
        assert Chunks([]) == [] && Rest([]) == [];
      }
    } else {
      AppendBytes(w[n..], x);
      assert (w + x)[..n] == w[..n] && (w + x)[n..] == w[n..] + x;
    }
  }

  // ---------------------------------------------------------------- the writer

  class StreamingResponseWriter {
    var header: HttpHeader
    var statusCode: int
    var headerSent: bool
    var buffer: seq<byte>
    var respChan: seq<Message>     // everything sent so far
    ghost var closed: seq<Message> // what was sent when the writer was last closed, or the header alone
    ghost var written: seq<byte>   // the bytes written since

    constructor ()
      ensures Valid() && !headerSent && written == [] && header == map[]
    {
      header, statusCode, headerSent, buffer, respChan := map[], 200, false, [], [];
      closed, written := [], [];
    }

    /** What is sent and what is kept depend on the concatenation of the bytes written alone, and less than a chunk
        is kept. */
    ghost predicate Valid()
      reads this
    {
      && respChan == closed + Chunks(written) && buffer == Rest(written)
      && (headerSent <==> closed != []) && (!headerSent ==> written == [])
    }

    /** The header, if none has been sent yet */
    ghost function HeaderIfNone(code: int): seq<Message>
      reads this
    {
      if headerSent then closed else [Header(code, FirstValues(header))]
    }

    method WriteHeader(code: int)
      requires Valid()
      modifies `statusCode, `headerSent, `respChan, `closed
      ensures Valid() && headerSent && closed == old(HeaderIfNone(code)) && written == old(written)
      ensures statusCode == if old(headerSent) then old(statusCode) else code
    {
      if headerSent {
        return;
      }
      statusCode := code;
      headerSent := true;
      respChan := respChan + [Header(statusCode, FirstValues(header))];
      closed := respChan;
    }

    method SendChunk(data: seq<byte>)
      modifies `respChan
      ensures respChan == old(respChan) + LastChunk(data)
    {
      if |data| == 0 {
        return;
      }
      respChan := respChan + [Body(data)];
    }

    method Write(data: seq<byte>) returns (n: nat)
      requires Valid()
      modifies `statusCode, `headerSent, `respChan, `closed, `buffer, `written
      ensures Valid() && headerSent && n == |data|
      ensures closed == old(HeaderIfNone(200)) && written == old(written) + data
    {
      hide Chunks, Rest;
      if !headerSent {
        WriteHeader(200);
      }
      var left := data;
      ghost var before := written;
      ghost var done: seq<byte> := [];
      Taken(before, done, data, 0);
      if |buffer| > 0 {
        left, done := FillBuffer(data);
      }
      while |left| >= MAX_CHUNK_SIZE
        invariant Valid() && headerSent && closed == old(HeaderIfNone(200))
        invariant data == done + left && written == before + done && (left != [] ==> buffer == [])
        decreases |left|
      {
        Taken(before, done, left, MAX_CHUNK_SIZE);
        SendFirst(left);
        done := done + left[..MAX_CHUNK_SIZE];
        left := left[MAX_CHUNK_SIZE..];
      }
      if |left| > 0 {
        AppendBytes(written, left);
        Taken(before, done, left, |left|);
        buffer := buffer + left;
        written := written + left;
      }
      return |data|;
    }

    /** One turn of the loop of Write over full chunks */
    method SendFirst(left: seq<byte>)
      requires Valid() && headerSent && buffer == [] && |left| >= MAX_CHUNK_SIZE
      modifies `respChan, `written
      ensures Valid() && written == old(written) + left[..MAX_CHUNK_SIZE]
    {
      hide Chunks, Rest;
      var chunk := left[..MAX_CHUNK_SIZE];
      SendChunk(chunk);
      AppendBytes(written, chunk);
      EmptyFirst(chunk);
      written := written + chunk;
    }

    /** The part of Write that fills a buffer that already holds bytes, and sends it if it is full then */
    method FillBuffer(data: seq<byte>) returns (left: seq<byte>, ghost taken: seq<byte>)
      requires Valid() && headerSent && |buffer| > 0
      modifies `buffer, `respChan, `written
      ensures Valid() && data == taken + left && written == old(written) + taken && (left != [] ==> buffer == [])
    {
      hide Chunks, Rest;
      var spaceInBuffer := MAX_CHUNK_SIZE - |buffer|;
      left, taken := data, [];
      if spaceInBuffer > 0 {
        var toBuffer := spaceInBuffer;
        if toBuffer > |data| {
          toBuffer := |data|;
        }
        AppendBytes(written, data[..toBuffer]);
        buffer := buffer + data[..toBuffer];
        taken := data[..toBuffer];
        written := written + taken;
        left := data[toBuffer..];
      }
      if |buffer| == MAX_CHUNK_SIZE {
        SendChunk(buffer);
        buffer := [];
      }
    }

    /** Close sends what is kept as a last chunk, so that all messages together are the header and the text cut. */
    method Close()
      requires Valid()
      modifies this
      ensures Valid() && headerSent && buffer == [] && written == []
      ensures respChan == old(HeaderIfNone(200)) + Chunks(old(written)) + LastChunk(Rest(old(written)))
    {
      if !headerSent {
        WriteHeader(200);
      }
      if |buffer| > 0 {
        SendChunk(buffer);
        buffer := [];
      }
      closed, written := respChan, [];
    }
  }

  lemma EmptyFirst(s: seq<byte>)
    ensures [] + s == s
  {
  }

  lemma Taken(before: seq<byte>, done: seq<byte>, left: seq<byte>, n: nat)
    requires n <= |left|
    ensures done + left == done + left[..n] + left[n..] && before + done + left[..n] == before + (done + left[..n])
    ensures left[..0] == [] && left[0..] == left && left[..|left|] == left && [] + left == left && before + [] == before
  {
  }

  // ---------------------------------------------------------------- runs

  /** What a handler does with the writer: it changes the header map, sends a status, or writes. */
  datatype Op = SetHeader(header: HttpHeader) | SetStatus(code: int) | Put(data: seq<byte>)

  /** All bytes written, in order */
  function Written(ops: seq<Op>): seq<byte> {
    if ops == [] then []
    else
      var last := ops[|ops| - 1];
      Written(ops[..|ops| - 1]) + (if last.Put? then last.data else [])
  }

  /** The first operation that sends the header; if there is none, closing sends it. */
  function FirstOut(ops: seq<Op>): (n: nat)
    ensures n <= |ops| && (n < |ops| ==> !ops[n].SetHeader?) && forall k :: 0 <= k < n ==> ops[k].SetHeader?
  {
    if ops != [] && ops[0].SetHeader? then 1 + FirstOut(ops[1..]) else 0
  }

  /** The header map after n changes */
  function HeaderAfter(ops: seq<Op>, n: nat): HttpHeader
    requires n <= |ops| && forall k :: 0 <= k < n ==> ops[k].SetHeader?
  {
    if n == 0 then map[] else ops[n - 1].header
  }

  /** The header message: the map is as it was at the first status or write, and a status counts only if it comes before
      all writes. */
  function HeaderSent(ops: seq<Op>): Message {
    var n := FirstOut(ops);
    Header(if n < |ops| && ops[n].SetStatus? then ops[n].code else 200, FirstValues(HeaderAfter(ops, n)))
  }

  /** Every message of a cut but the last has 64K bytes, and the last has at most that many. */
  lemma CutSizes(messages: seq<Message>, i: nat)
    requires IsCut(messages) && i < |messages|
    ensures messages[i].Body? && 0 < |messages[i].body| <= 65536
    ensures i < |messages| - 1 ==> |messages[i].body| == 65536
  {
  }

  /** What the header message says: the status is the first one that is set, if that is before all writes, and otherwise
      200; and of each name that has values then, the first one is sent. */
  lemma HeaderMeaning(ops: seq<Op>, n: nat)
    requires n <= |ops| && (forall k :: 0 <= k < n ==> ops[k].SetHeader?) && (n < |ops| ==> !ops[n].SetHeader?)
    ensures var m, header := HeaderSent(ops), if n == 0 then map[] else ops[n - 1].header;
      && m.Header?
      && m.statusCode == (if n < |ops| && ops[n].SetStatus? then ops[n].code else 200)
      && (forall name :: name in m.headers <==> name in header && header[name] != [])
      && forall name :: name in m.headers ==> m.headers[name] == header[name][0]
  {
    assert FirstOut(ops) == n;
  }

  /** Whatever a handler does with a new writer, in any order, closing it leaves one header and then the concatenation
      of all that was written, cut: the same for every split of the same bytes. */
  method Send(ops: seq<Op>) returns (sent: seq<Message>)
    ensures sent != [] && sent[0] == HeaderSent(ops)
    ensures IsCut(sent[1..]) && Text(sent[1..]) == Written(ops)
  {
    hide FirstValues, IsCut, Chunks, Rest;
    var w := new StreamingResponseWriter();
    ghost var n := FirstOut(ops);
    for i := 0 to |ops|
      invariant fresh(w) && w.Valid() && w.written == Written(ops[..i])
      invariant if i <= n then !w.headerSent && w.header == HeaderAfter(ops, i) else w.closed == [HeaderSent(ops)]
    {
      assert ops[..i + 1][..i] == ops[..i];
      match ops[i]
      case SetHeader(header) => w.header := header;
      case SetStatus(code) => w.WriteHeader(code);
      case Put(data) => var _ := w.Write(data);
    }
    assert ops[..|ops|] == ops;
    w.Close();
    sent := w.respChan;
    ChunksAreCut(Written(ops));
    assert sent[1..] == Chunks(Written(ops)) + LastChunk(Rest(Written(ops)));
  }
}
