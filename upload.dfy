/** Receiving the uploaded file: the request body is copied, in bounded
    chunks, into a file inside the request's private workspace directory. */
module Upload {
  import opened Basics

  /** The largest read the receiver ever asks for. */
  const ChunkSize: nat := 65536

  /** The request body stream (`rfile`): the bytes the client has sent that
      have not been read yet. */
  class ByteSource {
    var pending: seq<byte>

    constructor (body: seq<byte>)
      ensures pending == body
    {
      pending := body;
    }

    /** `read(n)`: up to `n` bytes from the front of the stream, at least one
        while any remain, none at the end of the stream. How many arrive at
        once is up to the transport. */
    method Read(n: int) returns (data: seq<byte>)
      requires n >= 1
      modifies this
      ensures |data| <= n && old(pending) == data + pending
      ensures old(pending) != [] ==> |data| >= 1
    {
      assert 0 <= Min(n, |pending|) <= |pending|;
      var k :| 0 <= k <= n && k <= |pending| && (pending != [] ==> k >= 1);
      data := pending[..k];
      pending := pending[k..];
    }
  }

  /** The request's temporary directory: the files the handler wrote into it
      and whether it has been removed. `created` records the names of the
      files ever opened for writing in it, even after its removal. */
  class Workspace {
    const path: string
    var files: map<string, seq<byte>>
    var released: bool
    ghost var created: set<string>

    constructor (path: string)
      ensures this.path == path && files == map[] && !released && created == {}
    {
      this.path := path;
      files := map[];
      released := false;
      created := {};
    }

    /** `open(name, 'wb+')`: creates the file, or truncates it. */
    method Create(name: string)
      modifies this
      ensures files == old(files)[name := []] && released == old(released)
      ensures created == old(created) + {name}
    {
      files := files[name := []];
      created := created + {name};
    }

    /** `write(data)` on the file opened as `name`. */
    method Append(name: string, data: seq<byte>)
      requires name in files
      modifies this
      ensures files == old(files)[name := old(files[name]) + data] && released == old(released)
      ensures created == old(created)
    {
      files := files[name := files[name] + data];
    }

    /** Leaving `with tempfile.TemporaryDirectory()`: the directory and
        everything in it are removed. */
    method Release()
      modifies this
      ensures released && files == map[] && created == old(created)
    {
      files := map[];
      released := true;
    }
  }

  /** One turn of the copy loop: at position `pos` of a body of `length`
      bytes the receiver asks for `req` bytes and gets `chunk`. */
  predicate ReadStep(length: int, pos: int, req: int, chunk: seq<byte>)
  {
    pos < length && req == Min(ChunkSize, length - pos) && 1 <= |chunk| <= req
  }

  /** The turns so far of a copy of `length` bytes: the position before each
      read is what the earlier reads delivered. */
  predicate CopyTurns(length: int, reqs: seq<int>, chunks: seq<seq<byte>>)
  {
    |reqs| == |chunks| &&
    forall i :: 0 <= i < |reqs| ==> ReadStep(length, |Concat(chunks[..i])|, reqs[i], chunks[i])
  }

  /** A finished copy: the turns stopped once exactly `length` bytes (none,
      for a length of zero or below) had arrived. */
  predicate ChunkedCopy(length: int, reqs: seq<int>, chunks: seq<seq<byte>>)
  {
    CopyTurns(length, reqs, chunks) && |Concat(chunks)| == Max(0, length)
  }

  /** A further read at the position the earlier reads reached extends the turns. */
  lemma CopyTurnsExtend(length: int, reqs: seq<int>, chunks: seq<seq<byte>>, req: int, chunk: seq<byte>)
    requires CopyTurns(length, reqs, chunks)
    requires ReadStep(length, |Concat(chunks)|, req, chunk)
    ensures CopyTurns(length, reqs + [req], chunks + [chunk])
    ensures Concat(chunks + [chunk]) == Concat(chunks) + chunk
  {
    var chunks' := chunks + [chunk];
    assert chunks'[..|chunks|] == chunks;
    assert forall i :: 0 <= i < |chunks| ==> chunks'[..i] == chunks[..i];
  }

  /** Every request asks for at least one byte, at most ChunkSize bytes and
      never more than are still due, so the position never passes `length`. */
  lemma {:induction false} CopyStaysInBounds(length: int, reqs: seq<int>, chunks: seq<seq<byte>>, i: int)
    requires CopyTurns(length, reqs, chunks)
    requires 0 <= i < |reqs|
    ensures 1 <= reqs[i] <= ChunkSize
    ensures |Concat(chunks[..i])| + reqs[i] <= length
    ensures |Concat(chunks[..i + 1])| <= length
  {
    assert ReadStep(length, |Concat(chunks[..i])|, reqs[i], chunks[i]);
    assert chunks[..i + 1][..i] == chunks[..i];
  }

  /** A body of `length` bytes takes at least length / ChunkSize reads, rounded
      up, and no more reads than it has bytes. */
  lemma ReadCount(length: int, reqs: seq<int>, chunks: seq<seq<byte>>)
    requires ChunkedCopy(length, reqs, chunks)
    ensures ChunkSize * |reqs| >= Max(0, length)
    ensures |reqs| <= Max(0, length)
  {
    forall i | 0 <= i < |chunks| ensures 1 <= |chunks[i]| <= ChunkSize {
      assert ReadStep(length, |Concat(chunks[..i])|, reqs[i], chunks[i]);
    }
    ConcatLengthBounds(chunks, 1, ChunkSize);
  }

  /** A declared length of zero or below is copied without a single read. */
  lemma NoReadsForEmptyBody(length: int, reqs: seq<int>, chunks: seq<seq<byte>>)
    requires ChunkedCopy(length, reqs, chunks)
    requires length <= 0
    ensures reqs == [] && chunks == []
  {
    ReadCount(length, reqs, chunks);
  }

  /** Part way through the copy of the first `length` bytes of `body`: the
      turns so far delivered `copied`, which is the front of `body`, and
      `pending` is the rest. */
  ghost predicate Copying(length: int, body: seq<byte>, reqs: seq<int>, got: seq<seq<byte>>,
                          copied: seq<byte>, pending: seq<byte>)
  {
    CopyTurns(length, reqs, got) && copied == Concat(got) && |copied| <= Max(0, length) &&
    body == copied + pending
  }

  /** One more turn of the copy loop keeps it on track. */
  lemma CopyingStep(length: int, body: seq<byte>, reqs: seq<int>, got: seq<seq<byte>>,
                    copied: seq<byte>, pending: seq<byte>, data: seq<byte>, rest: seq<byte>)
    requires length <= |body| && |copied| < length
    requires Copying(length, body, reqs, got, copied, pending)
    requires pending == data + rest && |data| <= Min(ChunkSize, length - |copied|)
    requires pending != [] ==> |data| >= 1
    ensures Copying(length, body, reqs + [Min(ChunkSize, length - |copied|)], got + [data], copied + data, rest)
  {
    CopyTurnsExtend(length, reqs, got, Min(ChunkSize, length - |copied|), data);
    assert body == (copied + data) + rest;
  }

  /** Once the position reaches `length` the copy is finished: it delivered the
      first `length` bytes of `body` and left the rest. */
  lemma CopyingDone(length: int, body: seq<byte>, reqs: seq<int>, got: seq<seq<byte>>,
                    copied: seq<byte>, pending: seq<byte>)
    requires Copying(length, body, reqs, got, copied, pending) && |copied| >= length
    ensures ChunkedCopy(length, reqs, got)
    ensures copied == body[..Max(0, length)] && pending == body[Max(0, length)..]
  {
    assert |copied| == Max(0, length);
  }

  /** Writing a key twice keeps only the second value. */
  lemma Overwrite<K, V>(m: map<K, V>, k: K, a: V, b: V)
    ensures m[k := a][k := b] == m[k := b]
  {
  }

  /** make_server.py:46-51: opens the file `name` of `ws` afresh and copies the first
      `length` bytes of `src` into it, asking for min(ChunkSize, length - pos)
      bytes at a time until the position reaches `length`. `reqs` and `got`
      record, read by read, the size asked for and the bytes that came back.
      The client is taken to send at least `length` bytes (the loop would
      otherwise wait forever). */
  method Receive(src: ByteSource, ws: Workspace, name: string, length: int)
    returns (ghost reqs: seq<int>, ghost got: seq<seq<byte>>)
    requires length <= |src.pending|
    modifies src, ws
    ensures ws.files == old(ws.files)[name := old(src.pending)[..Max(0, length)]]
    ensures ws.released == old(ws.released) && ws.created == old(ws.created) + {name}
    ensures src.pending == old(src.pending)[Max(0, length)..]
    ensures ChunkedCopy(length, reqs, got) && Concat(got) == old(src.pending)[..Max(0, length)]
  {
    ghost var body := src.pending;
    ws.Create(name);
    var pos := 0;
    reqs, got := [], [];
    ghost var copied: seq<byte> := [];
    while pos < length
      invariant pos == |copied|
      invariant Copying(length, body, reqs, got, copied, src.pending)
      invariant ws.files == old(ws.files)[name := copied] && ws.released == old(ws.released)
      invariant ws.created == old(ws.created) + {name}
      decreases length - pos
    {
      var want := Min(ChunkSize, length - pos);
      ghost var pending := src.pending;
      var data := src.Read(want);
      CopyingStep(length, body, reqs, got, copied, pending, data, src.pending);
      ws.Append(name, data);
      Overwrite(old(ws.files), name, copied, copied + data);
      reqs, got, copied := reqs + [want], got + [data], copied + data;
      pos := pos + |data|;
    }
    CopyingDone(length, body, reqs, got, copied, src.pending);
  }
}
