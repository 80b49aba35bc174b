/** The chunked encrypted backup file: a header, then one length-prefixed sealed frame per chunk that
    the source file's reads happened to return. The cipher is a parameter. */
module EncryptedBackups {
  import opened Bytes

  const MAGIC: seq<byte> := [80, 77, 88, 66, 75, 80, 48, 49]  // "PMXBKP01"
  const NONCE_SIZE := 12
  const HEADER_SIZE := 24
  const OVERHEAD := 16
  const CHUNK_SIZE := 0x10_0000
  const MAX_PAYLOAD := 0x100_0000

  /** An authenticated cipher under a fixed key, taking a nonce and a text. */
  datatype Aead = Aead(
    seal: (seq<byte>, seq<byte>) -> seq<byte>,
    open: (seq<byte>, seq<byte>) -> Option<seq<byte>>)

  /** Opening undoes sealing, and sealing adds a 16-byte tag (section 2.8 of RFC 8439). */
  ghost predicate Opens(a: Aead) {
    forall nonce, p :: |a.seal(nonce, p)| == |p| + OVERHEAD && a.open(nonce, a.seal(nonce, p)) == Some(p)
  }

  /** Only sealed texts open: the cipher is deterministic and its tag is recomputed on opening. */
  ghost predicate OpensOnlySealed(a: Aead) {
    forall nonce, c, p :: a.open(nonce, c) == Some(p) ==> c == a.seal(nonce, p)
  }

  function Nonce(base: seq<byte>, index: int): seq<byte>
    requires |base| == NONCE_SIZE && 0 <= index < TWO32
  {
    base[..8] + Le32(index)
  }

  function Header(base: seq<byte>, chunkSize: int): seq<byte>
    requires 0 <= chunkSize < TWO32
  {
    MAGIC + base + Le32(chunkSize)
  }

  function Frame(a: Aead, base: seq<byte>, i: nat, chunk: seq<byte>): seq<byte>
    requires |base| == NONCE_SIZE && |chunk| < TWO32
  {
    Le32(|chunk|) + a.seal(Nonce(base, i % TWO32), chunk)
  }

  predicate Sized(chunks: seq<seq<byte>>, limit: int) {
    forall k :: 0 <= k < |chunks| ==> 0 < |chunks[k]| <= limit
  }

  /** The frames of chunks number i, i+1, ... */
  function Frames(a: Aead, base: seq<byte>, i: nat, chunks: seq<seq<byte>>): seq<byte>
    requires |base| == NONCE_SIZE && Sized(chunks, MAX_PAYLOAD)
    decreases chunks
  {
    if chunks == [] then [] else Frame(a, base, i, chunks[0]) + Frames(a, base, i + 1, chunks[1..])
  }

  function Concat(chunks: seq<seq<byte>>): seq<byte> {
    if chunks == [] then [] else chunks[0] + Concat(chunks[1..])
  }

  // ---- Writing -----------------------------------------------------------------------------

  datatype ReadStatus = More | Eof | Failed

  /** One result of reading the source: any number of bytes up to the buffer size. */
  datatype Read = Read(data: seq<byte>, status: ReadStatus)

  /** What the results of reading a source look like: the last one, and only it, ends the file or fails. */
  predicate WholeInput(input: seq<Read>) {
    && input != []
    && (forall k :: 0 <= k < |input| ==> |input[k].data| <= CHUNK_SIZE)
    && (forall k :: 0 <= k < |input| ==> (input[k].status == More <==> k < |input| - 1))
  }

  function Content(input: seq<Read>): seq<byte> {
    if input == [] then [] else Content(input[..|input| - 1]) + input[|input| - 1].data
  }

  function Chunks(input: seq<Read>): (chunks: seq<seq<byte>>)
    requires forall k :: 0 <= k < |input| ==> |input[k].data| <= CHUNK_SIZE
    ensures Sized(chunks, CHUNK_SIZE)
  {
    if input == [] then []
    else
      var init, data := Chunks(input[..|input| - 1]), input[|input| - 1].data;
      if data == [] then init else init + [data]
  }

  function Encoded(a: Aead, base: seq<byte>, chunkSize: int, chunks: seq<seq<byte>>): seq<byte>
    requires |base| == NONCE_SIZE && Sized(chunks, MAX_PAYLOAD) && 0 <= chunkSize < TWO32
  {
    Header(base, chunkSize) + Frames(a, base, 0, chunks)
  }

  /** Encrypts a source read piece by piece; the chunk counter is a 32-bit word. */
  method EncryptToTemp(a: Aead, base: seq<byte>, input: seq<Read>) returns (file: Option<seq<byte>>)
    requires |base| == NONCE_SIZE && WholeInput(input)
    ensures file == if input[|input| - 1].status == Failed then None
                    else Some(Encoded(a, base, CHUNK_SIZE, Chunks(input)))
  {
    var out := Header(base, CHUNK_SIZE);
    var chunkIndex := 0;
    var k := 0;
    ghost var chunks: seq<seq<byte>> := [];
    assert out == Encoded(a, base, CHUNK_SIZE, []);
    while k < |input|
      invariant 0 <= k <= |input| && (k > 0 ==> input[k - 1].status == More)
      invariant chunks == Chunks(input[..k])
      invariant chunkIndex == |chunks| % TWO32
      invariant out == Encoded(a, base, CHUNK_SIZE, chunks)
    {
      ChunksGrow(input, k);
      if |input[k].data| > 0 {
        out, chunkIndex := WriteChunk(a, base, out, chunkIndex, input[k].data, chunks);
        chunks := chunks + [input[k].data];
      }
      k := k + 1;
      if input[k - 1].status == Eof {
        break;
      }
      if input[k - 1].status == Failed {
        return None;
      }
    }
    assert input[..k] == input;
    return Some(out);
  }

  method WriteChunk(a: Aead, base: seq<byte>, out: seq<byte>, chunkIndex: int, data: seq<byte>,
                    ghost chunks: seq<seq<byte>>)
    returns (out': seq<byte>, chunkIndex': int)
    requires |base| == NONCE_SIZE && Sized(chunks, CHUNK_SIZE) && 0 < |data| <= CHUNK_SIZE
    requires chunkIndex == |chunks| % TWO32 && out == Encoded(a, base, CHUNK_SIZE, chunks)
    ensures chunkIndex' == |chunks + [data]| % TWO32 && out' == Encoded(a, base, CHUNK_SIZE, chunks + [data])
  {
    var sealed := a.seal(Nonce(base, chunkIndex), data);
    FramesAppend(a, base, 0, chunks, data);
    RegroupFour(Header(base, CHUNK_SIZE), Frames(a, base, 0, chunks), Le32(|data|), sealed);
    NextIndex(|chunks|);
    out' := out + Le32(|data|) + sealed;
    chunkIndex' := (chunkIndex + 1) % TWO32;
  }

  lemma ChunksGrow(input: seq<Read>, k: nat)
    requires k < |input| && forall n :: 0 <= n < |input| ==> |input[n].data| <= CHUNK_SIZE
    ensures Chunks(input[..k + 1]) ==
              if input[k].data == [] then Chunks(input[..k]) else Chunks(input[..k]) + [input[k].data]
  {
    assert input[..k + 1][..k] == input[..k];
  }

  lemma NextIndex(n: nat)
    ensures (n % TWO32 + 1) % TWO32 == (n + 1) % TWO32
  {
  }

  lemma RegroupFour(a: seq<byte>, b: seq<byte>, c: seq<byte>, d: seq<byte>)
    ensures a + b + c + d == a + (b + (c + d))
  {
  }

  lemma {:induction false} FramesAppend(a: Aead, base: seq<byte>, i: nat, chunks: seq<seq<byte>>, chunk: seq<byte>)
    requires |base| == NONCE_SIZE && Sized(chunks, MAX_PAYLOAD) && 0 < |chunk| <= MAX_PAYLOAD
    ensures Frames(a, base, i, chunks + [chunk]) == Frames(a, base, i, chunks) + Frame(a, base, i + |chunks|, chunk)
    decreases chunks
  {
    if chunks == [] {
      assert [chunk][1..] == [];
      assert Frames(a, base, i + 1, []) == [];
    } else {
      assert (chunks + [chunk])[1..] == chunks[1..] + [chunk];
      FramesAppend(a, base, i + 1, chunks[1..], chunk);
    }
  }

  /** The file, byte by byte: magic, nonce and the chunk size of 1 MiB, and then for each chunk its length and its
      sealed text, under the first eight bytes of the nonce and the chunk's number as a 32-bit word. */
  lemma EncodedBytes(a: Aead, base: seq<byte>, chunks: seq<seq<byte>>, chunk: seq<byte>)
    requires |base| == 12 && Sized(chunks + [chunk], 0x10_0000)
    ensures Sized(chunks, 0x10_0000)
    ensures Encoded(a, base, CHUNK_SIZE, []) == [80, 77, 88, 66, 75, 80, 48, 49] + base + [0, 0, 16, 0]
    ensures
      var n, i := |chunk|, |chunks| % 0x1_0000_0000;
      Encoded(a, base, CHUNK_SIZE, chunks + [chunk])
      == Encoded(a, base, CHUNK_SIZE, chunks)
         + ([n % 0x100, n / 0x100 % 0x100, n / 0x1_0000 % 0x100, n / 0x100_0000]
            + a.seal(base[..8] + [i % 0x100, i / 0x100 % 0x100, i / 0x1_0000 % 0x100, i / 0x100_0000], chunk))
  {
    assert forall k :: 0 <= k < |chunks| ==> (chunks + [chunk])[k] == chunks[k];
    assert (chunks + [chunk])[|chunks|] == chunk;
    Le32Bytes(0x10_0000);
    Le32Bytes(|chunk|);
    Le32Bytes(|chunks| % TWO32);
    FramesAppend(a, base, 0, chunks, chunk);
    Regroup(Header(base, CHUNK_SIZE), Frames(a, base, 0, chunks), Frame(a, base, |chunks|, chunk));
  }

  // ---- Reading -----------------------------------------------------------------------------

  datatype DecryptError =
    | ShortMagic | WrongMagic | ShortNonce | ShortChunkSize | InvalidChunkSize
    | TruncatedLength | InvalidLength | TruncatedChunk | IntegrityFailure

  /** What reached the destination file, and the error the reader stopped with, if any. */
  datatype Decrypted = Decrypted(plain: seq<byte>, error: Option<DecryptError>)

  function ReadFrames(a: Aead, base: seq<byte>, i: nat, data: seq<byte>): Decrypted
    requires |base| == NONCE_SIZE
    decreases |data|
  {
    if data == [] then Decrypted([], None)
    else if |data| < 4 then Decrypted([], Some(TruncatedLength))
    else
      var n := FromLe32(data[..4]);
      if n == 0 || n > MAX_PAYLOAD then Decrypted([], Some(InvalidLength))
      else if |data| < 4 + n + OVERHEAD then Decrypted([], Some(TruncatedChunk))
      else
        match a.open(Nonce(base, i % TWO32), data[4..4 + n + OVERHEAD])
        case None => Decrypted([], Some(IntegrityFailure))
        case Some(p) =>
          Resumed(p, ReadFrames(a, base, i + 1, data[4 + n + OVERHEAD..]))
  }

  function Decrypt(a: Aead, file: seq<byte>): Decrypted {
    if |file| < 8 then Decrypted([], Some(ShortMagic))
    else if file[..8] != MAGIC then Decrypted([], Some(WrongMagic))
    else if |file| < 20 then Decrypted([], Some(ShortNonce))
    else if |file| < 24 then Decrypted([], Some(ShortChunkSize))
    else
      var chunkSize := FromLe32(file[20..24]);
      if chunkSize == 0 || chunkSize > MAX_PAYLOAD then Decrypted([], Some(InvalidChunkSize))
      else ReadFrames(a, file[8..20], 0, file[24..])
  }

  method DecryptFile(a: Aead, file: seq<byte>) returns (dst: seq<byte>, error: Option<DecryptError>)
    ensures Decrypted(dst, error) == Decrypt(a, file)
    ensures
      var magic := |file| >= 8 && file[..8] == [80, 77, 88, 66, 75, 80, 48, 49];
      var whole := magic && |file| >= 24;
      var size := if whole then FromLe32(file[20..24]) else 0;
      && (error == Some(ShortMagic) <==> |file| < 8)
      && (error == Some(WrongMagic) <==> |file| >= 8 && !magic)
      && (error == Some(ShortNonce) <==> magic && |file| < 20)
      && (error == Some(ShortChunkSize) <==> magic && 20 <= |file| < 24)
      && (error == Some(InvalidChunkSize) <==> whole && !(1 <= size <= 0x100_0000))
      && (whole && 1 <= size <= 0x100_0000 ==> Decrypted(dst, error) == ReadFrames(a, file[8..20], 0, file[24..]))
  {
    dst := [];
    if |file| < 8 { return [], Some(ShortMagic); }
    if file[..8] != MAGIC { return [], Some(WrongMagic); }
    if |file| < 20 { return [], Some(ShortNonce); }
    var base := file[8..20];
    if |file| < 24 { return [], Some(ShortChunkSize); }
    var declared := FromLe32(file[20..24]);
    if declared == 0 || declared > MAX_PAYLOAD { return [], Some(InvalidChunkSize); }
    dst, error := DecryptBody(a, base, file[24..]);
  }

  method DecryptBody(a: Aead, base: seq<byte>, body: seq<byte>) returns (dst: seq<byte>, error: Option<DecryptError>)
    requires |base| == NONCE_SIZE
    ensures Decrypted(dst, error) == ReadFrames(a, base, 0, body)
    ensures error in {None, Some(TruncatedLength), Some(InvalidLength), Some(TruncatedChunk), Some(IntegrityFailure)}
  {
    dst := [];
    var chunkIndex := 0;
    var pos := 0;
    ghost var i := 0;
    while pos < |body|
      invariant 0 <= pos <= |body| && chunkIndex == i % TWO32 && i >= 0
      invariant ReadFrames(a, base, 0, body) == Resumed(dst, ReadFrames(a, base, i, body[pos..]))
      decreases |body| - pos
    {
      var chunk, next, failure := NextChunk(a, base, chunkIndex, i, body, pos);
      if failure != None {
        return dst, failure;
      }
      ResumedTwice(dst, chunk, ReadFrames(a, base, i + 1, body[next..]));
      NextIndex(i);
      dst := dst + chunk;
      chunkIndex := (chunkIndex + 1) % TWO32;
      pos, i := next, i + 1;
    }
    return dst, None;
  }

  /** Reads and opens the frame at `pos`. */
  method NextChunk(a: Aead, base: seq<byte>, chunkIndex: int, ghost i: nat, body: seq<byte>, pos: nat)
    returns (chunk: seq<byte>, next: nat, error: Option<DecryptError>)
    requires |base| == NONCE_SIZE && pos < |body| && chunkIndex == i % TWO32
    ensures error != None ==> ReadFrames(a, base, i, body[pos..]) == Decrypted([], error)
    ensures error == None ==> pos < next <= |body|
    ensures error in {None, Some(TruncatedLength), Some(InvalidLength), Some(TruncatedChunk), Some(IntegrityFailure)}
    ensures
      var length := if |body| - pos >= 4 then FromLe32(body[pos..pos + 4]) else 0;
      var valid := |body| - pos >= 4 && 1 <= length <= 0x100_0000;
      var whole := valid && |body| - pos >= 4 + length + 16;
      var plain := if whole then a.open(Nonce(base, chunkIndex), body[pos + 4..pos + 4 + length + 16]) else None;
      && (error == Some(TruncatedLength) <==> |body| - pos < 4)
      && (error == Some(InvalidLength) <==> |body| - pos >= 4 && !valid)
      && (error == Some(TruncatedChunk) <==> valid && !whole)
      && (error == Some(IntegrityFailure) <==> whole && plain == None)
      && (error == None <==> plain.Some?)
      && (error == None ==> chunk == plain.value && next == pos + 4 + length + 16)
    ensures error == None ==>
              ReadFrames(a, base, i, body[pos..]) == Resumed(chunk, ReadFrames(a, base, i + 1, body[next..]))
  {
    if |body| - pos < 4 { return [], pos, Some(TruncatedLength); }
    assert body[pos..][..4] == body[pos..pos + 4];
    var plainLen := FromLe32(body[pos..pos + 4]);
    if plainLen == 0 || plainLen > MAX_PAYLOAD { return [], pos, Some(InvalidLength); }
    next := pos + 4 + plainLen + OVERHEAD;
    if |body| < next { return [], pos, Some(TruncatedChunk); }
    SliceFrame(body, pos, plainLen);
    match a.open(Nonce(base, chunkIndex), body[pos + 4..next])
    case None => return [], pos, Some(IntegrityFailure);
    case Some(plain) => return plain, next, None;
  }

  lemma SliceFrame(body: seq<byte>, pos: nat, n: nat)
    requires pos + 4 + n + OVERHEAD <= |body|
    ensures body[pos..][4..4 + n + OVERHEAD] == body[pos + 4..pos + 4 + n + OVERHEAD]
    ensures body[pos..][4 + n + OVERHEAD..] == body[pos + 4 + n + OVERHEAD..]
  {
  }

  lemma ResumedTwice(done: seq<byte>, p: seq<byte>, rest: Decrypted)
    ensures Resumed(done, Resumed(p, rest)) == Resumed(done + p, rest)
  {
    assert done + (p + rest.plain) == done + p + rest.plain;
  }

  function Resumed(done: seq<byte>, rest: Decrypted): Decrypted {
    Decrypted(done + rest.plain, rest.error)
  }

  // ---- Round trip --------------------------------------------------------------------------

  lemma FrameHead(a: Aead, base: seq<byte>, i: nat, chunk: seq<byte>, rest: seq<byte>)
    requires |base| == NONCE_SIZE && Opens(a) && 0 < |chunk| <= MAX_PAYLOAD
    ensures
      var data, n := Frame(a, base, i, chunk) + rest, |chunk|;
      && |data| >= 4 + n + OVERHEAD && FromLe32(data[..4]) == n
      && data[4..4 + n + OVERHEAD] == a.seal(Nonce(base, i % TWO32), chunk)
      && data[4 + n + OVERHEAD..] == rest
  {
    var data, sealed := Frame(a, base, i, chunk) + rest, a.seal(Nonce(base, i % TWO32), chunk);
    assert data == Le32(|chunk|) + sealed + rest;
    assert data[..4] == Le32(|chunk|);
    Le32Decodes(|chunk|);
  }

  lemma ReadFrame(a: Aead, base: seq<byte>, i: nat, chunk: seq<byte>, rest: seq<byte>)
    requires |base| == NONCE_SIZE && Opens(a) && 0 < |chunk| <= MAX_PAYLOAD
    ensures ReadFrames(a, base, i, Frame(a, base, i, chunk) + rest) == Resumed(chunk, ReadFrames(a, base, i + 1, rest))
  {
    FrameHead(a, base, i, chunk, rest);
  }

  /** Reading frames, then whatever follows them, gives back their chunks first. */
  lemma {:induction false} ReadsBack(a: Aead, base: seq<byte>, i: nat, chunks: seq<seq<byte>>, rest: seq<byte>)
    requires |base| == NONCE_SIZE && Opens(a) && Sized(chunks, MAX_PAYLOAD)
    ensures ReadFrames(a, base, i, Frames(a, base, i, chunks) + rest)
            == Resumed(Concat(chunks), ReadFrames(a, base, i + |chunks|, rest))
    decreases chunks
  {
    if chunks == [] {
      assert Frames(a, base, i, chunks) + rest == rest;
    } else {
      var tail := Frames(a, base, i + 1, chunks[1..]) + rest;
      assert Frames(a, base, i, chunks) + rest == Frame(a, base, i, chunks[0]) + tail;
      ReadFrame(a, base, i, chunks[0], tail);
      ReadsBack(a, base, i + 1, chunks[1..], rest);
      ResumedTwice(chunks[0], Concat(chunks[1..]), ReadFrames(a, base, i + |chunks|, rest));
    }
  }

  lemma HeaderParses(base: seq<byte>, chunkSize: int, body: seq<byte>)
    requires |base| == NONCE_SIZE && 0 <= chunkSize < TWO32
    ensures
      var file := Header(base, chunkSize) + body;
      && |file| >= 24 && file[..8] == MAGIC && file[8..20] == base
      && FromLe32(file[20..24]) == chunkSize && file[24..] == body
  {
    var file := Header(base, chunkSize) + body;
    assert file == MAGIC + base + Le32(chunkSize) + body;
    assert file[20..24] == Le32(chunkSize);
    Le32Decodes(chunkSize);
  }

  /** Any well-formed file decrypts to the concatenation of its chunks. */
  lemma DecryptsEncoded(a: Aead, base: seq<byte>, chunkSize: int, chunks: seq<seq<byte>>)
    requires |base| == NONCE_SIZE && Opens(a) && Sized(chunks, MAX_PAYLOAD) && 0 < chunkSize <= MAX_PAYLOAD
    ensures Decrypt(a, Encoded(a, base, chunkSize, chunks)) == Decrypted(Concat(chunks), None)
  {
    var body := Frames(a, base, 0, chunks);
    HeaderParses(base, chunkSize, body);
    ReadsBack(a, base, 0, chunks, []);
    assert body + [] == body && Concat(chunks) + [] == Concat(chunks);
  }

  lemma {:induction false} ConcatAppend(chunks: seq<seq<byte>>, chunk: seq<byte>)
    ensures Concat(chunks + [chunk]) == Concat(chunks) + chunk
  {
    if chunks == [] {
      assert [chunk][1..] == [] && chunk + [] == chunk;
    } else {
      assert (chunks + [chunk])[1..] == chunks[1..] + [chunk];
      ConcatAppend(chunks[1..], chunk);
    }
  }

  lemma {:induction false} ChunksHoldContent(input: seq<Read>)
    requires forall k :: 0 <= k < |input| ==> |input[k].data| <= CHUNK_SIZE
    ensures Concat(Chunks(input)) == Content(input)
  {
    if input != [] {
      var init, data := input[..|input| - 1], input[|input| - 1].data;
      ChunksHoldContent(init);
      if data == [] {
        assert Content(init) + data == Content(init);
      } else {
        ConcatAppend(Chunks(init), data);
      }
    }
  }

  /** For every source, nonce and way the reads split it, decrypting gives the source back. */
  lemma RoundTrip(a: Aead, base: seq<byte>, input: seq<Read>)
    requires |base| == NONCE_SIZE && Opens(a) && WholeInput(input)
    ensures Decrypt(a, Encoded(a, base, CHUNK_SIZE, Chunks(input))) == Decrypted(Content(input), None)
  {
    DecryptsEncoded(a, base, CHUNK_SIZE, Chunks(input));
    ChunksHoldContent(input);
  }

  // ---- What the reader accepts -------------------------------------------------------------

  lemma FrameAccepted(a: Aead, base: seq<byte>, i: nat, data: seq<byte>) returns (p: seq<byte>, rest: seq<byte>)
    requires |base| == NONCE_SIZE && Opens(a) && OpensOnlySealed(a) && data != []
    requires ReadFrames(a, base, i, data).error == None
    ensures 0 < |p| <= MAX_PAYLOAD && data == Frame(a, base, i, p) + rest && |rest| < |data|
    ensures ReadFrames(a, base, i, data) == Resumed(p, ReadFrames(a, base, i + 1, rest))
  {
    var n := FromLe32(data[..4]);
    var sealed := data[4..4 + n + OVERHEAD];
    rest := data[4 + n + OVERHEAD..];
    p := a.open(Nonce(base, i % TWO32), sealed).value;
    assert sealed == a.seal(Nonce(base, i % TWO32), p) && |p| == n;
    Le32Encodes(data[..4]);
    assert data == data[..4] + sealed + rest;
  }

  lemma {:induction false} FramesAccepted(a: Aead, base: seq<byte>, i: nat, data: seq<byte>)
    returns (chunks: seq<seq<byte>>)
    requires |base| == NONCE_SIZE && Opens(a) && OpensOnlySealed(a)
    requires ReadFrames(a, base, i, data).error == None
    ensures Sized(chunks, MAX_PAYLOAD) && data == Frames(a, base, i, chunks)
    ensures ReadFrames(a, base, i, data).plain == Concat(chunks)
    decreases |data|
  {
    if data == [] {
      chunks := [];
    } else {
      var p, rest := FrameAccepted(a, base, i, data);
      var tail := FramesAccepted(a, base, i + 1, rest);
      chunks := [p] + tail;
      assert chunks[0] == p && chunks[1..] == tail;
    }
  }

  /** The reader accepts exactly the writer's format: one header and any number of sealed chunks,
      with a chunk size and payload sizes between 1 byte and 16 MiB. */
  lemma AcceptsExactlyTheFormat(a: Aead, file: seq<byte>)
    requires Opens(a) && OpensOnlySealed(a)
    ensures Decrypt(a, file).error == None <==> IsEncoding(a, file)
  {
    if Decrypt(a, file).error == None {
      AcceptedIsEncoding(a, file);
    } else if IsEncoding(a, file) {
      var base, chunkSize, chunks :| ValidParts(base, chunkSize, chunks) && file == Encoded(a, base, chunkSize, chunks);
      DecryptsEncoded(a, base, chunkSize, chunks);
    }
  }

  lemma AcceptedIsEncoding(a: Aead, file: seq<byte>)
    requires Opens(a) && OpensOnlySealed(a) && Decrypt(a, file).error == None
    ensures IsEncoding(a, file)
  {
    var base, chunkSize := file[8..20], FromLe32(file[20..24]);
    var chunks := FramesAccepted(a, base, 0, file[24..]);
    Le32Encodes(file[20..24]);
    assert file == file[..8] + file[8..20] + file[20..24] + file[24..];
    assert file == Encoded(a, base, chunkSize, chunks);
  }

  ghost predicate ValidParts(base: seq<byte>, chunkSize: int, chunks: seq<seq<byte>>) {
    |base| == NONCE_SIZE && 0 < chunkSize <= MAX_PAYLOAD && Sized(chunks, MAX_PAYLOAD)
  }

  ghost predicate IsEncoding(a: Aead, file: seq<byte>) {
    exists base, chunkSize, chunks ::
      ValidParts(base, chunkSize, chunks) && file == Encoded(a, base, chunkSize, chunks)
  }

  // ---- Truncated files ---------------------------------------------------------------------

  lemma {:induction false} CutFrames(a: Aead, base: seq<byte>, i: nat, chunks: seq<seq<byte>>, m: nat) returns (k: nat)
    requires |base| == NONCE_SIZE && Opens(a) && Sized(chunks, MAX_PAYLOAD)
    requires m <= |Frames(a, base, i, chunks)|
    ensures k <= |chunks| && Size(chunks, k) <= m && (k < |chunks| ==> m < Size(chunks, k + 1))
    ensures
      var d := ReadFrames(a, base, i, Frames(a, base, i, chunks)[..m]);
      d.plain == Concat(chunks[..k]) && (d.error == None <==> m == Size(chunks, k))
    decreases chunks
  {
    var all := Frames(a, base, i, chunks);
    if chunks == [] {
      k := 0;
      assert all[..m] == [];
    } else {
      var frame, tail, n := Frame(a, base, i, chunks[0]), Frames(a, base, i + 1, chunks[1..]), |chunks[0]|;
      assert all == frame + tail && |frame| == 4 + n + OVERHEAD;
      if m < |frame| {
        k := 0;
        CutFrame(a, base, i, chunks[0], m);
        assert all[..m] == frame[..m];
      } else {
        assert all[..m] == frame + tail[..m - |frame|];
        var k' := CutFrames(a, base, i + 1, chunks[1..], m - |frame|);
        ReadFrame(a, base, i, chunks[0], tail[..m - |frame|]);
        k := k' + 1;
        SizeTail(chunks, k');
        if k' < |chunks[1..]| { SizeTail(chunks, k' + 1); }
        assert chunks[..k][1..] == chunks[1..][..k'];
      }
    }
  }

  /** The bytes of the first k frames. */
  function Size(chunks: seq<seq<byte>>, k: nat): nat
    requires k <= |chunks|
  {
    if k == 0 then 0 else Size(chunks, k - 1) + 4 + |chunks[k - 1]| + OVERHEAD
  }

  lemma {:induction false} SizeTail(chunks: seq<seq<byte>>, k: nat)
    requires chunks != [] && k <= |chunks| - 1
    ensures Size(chunks, k + 1) == 4 + |chunks[0]| + OVERHEAD + Size(chunks[1..], k)
  {
    if k > 0 {
      SizeTail(chunks, k - 1);
    }
  }

  lemma CutFrame(a: Aead, base: seq<byte>, i: nat, chunk: seq<byte>, m: nat)
    requires |base| == NONCE_SIZE && Opens(a) && 0 < |chunk| <= MAX_PAYLOAD
    requires m < |Frame(a, base, i, chunk)|
    ensures
      var d := ReadFrames(a, base, i, Frame(a, base, i, chunk)[..m]);
      d.plain == [] && (d.error == None <==> m == 0)
  {
    var frame := Frame(a, base, i, chunk);
    if m >= 4 {
      assert frame[..m][..4] == Le32(|chunk|);
      Le32Decodes(|chunk|);
    }
  }

  /** Cutting an encrypted file anywhere: the leading whole chunks, and only they, reach the
      destination, and the cut goes unnoticed exactly when it falls between two frames. */
  lemma Truncation(a: Aead, base: seq<byte>, chunkSize: int, chunks: seq<seq<byte>>, m: nat) returns (k: nat)
    requires |base| == NONCE_SIZE && Opens(a) && Sized(chunks, MAX_PAYLOAD) && 0 < chunkSize <= MAX_PAYLOAD
    requires m <= |Encoded(a, base, chunkSize, chunks)|
    ensures k <= |chunks| && (m >= HEADER_SIZE ==> HEADER_SIZE + Size(chunks, k) <= m)
    ensures k < |chunks| ==> m < HEADER_SIZE + Size(chunks, k + 1)
    ensures
      var d := Decrypt(a, Encoded(a, base, chunkSize, chunks)[..m]);
      d.plain == Concat(chunks[..k]) && (d.error == None <==> m == HEADER_SIZE + Size(chunks, k))
  {
    var body := Frames(a, base, 0, chunks);
    var file := Encoded(a, base, chunkSize, chunks);
    if m < HEADER_SIZE {
      k := 0;
    } else {
      k := CutFrames(a, base, 0, chunks, m - HEADER_SIZE);
      assert file[..m] == Header(base, chunkSize) + body[..m - HEADER_SIZE];
      HeaderParses(base, chunkSize, body[..m - HEADER_SIZE]);
    }
  }

  /** A cipher that only adds sixteen zeros, to show that what is asked of a cipher can be had. */
  function Toy(): Aead {
    Aead((nonce, p) => p + seq(OVERHEAD, _ => 0),
         (nonce, c) => if |c| >= OVERHEAD && c[|c| - OVERHEAD..] == seq(OVERHEAD, _ => 0)
                       then Some(c[..|c| - OVERHEAD]) else None)
  }

  lemma ToyOpens()
    ensures Opens(Toy()) && OpensOnlySealed(Toy())
  {
    var tag: seq<byte> := seq(OVERHEAD, _ => 0);
    forall nonce: seq<byte>, p: seq<byte>
      ensures |Toy().seal(nonce, p)| == |p| + OVERHEAD && Toy().open(nonce, Toy().seal(nonce, p)) == Some(p)
    {
      assert (p + tag)[..|p|] == p && (p + tag)[|p|..] == tag;
    }
  }

  /** Two chunks, cut between the two frames: the first one comes out without an error. */
  lemma UnnoticedCutExample(base: seq<byte>)
    requires |base| == NONCE_SIZE
    ensures
      var file := Encoded(Toy(), base, CHUNK_SIZE, [[1], [2]]);
      |file| > 45 && Decrypt(Toy(), file[..45]) == Decrypted([1], None)
  {
    ToyOpens();
    var chunks: seq<seq<byte>> := [[1], [2]];
    EncodedSize(Toy(), base, chunks);
    assert Size(chunks, 0) == 0 && Size(chunks, 1) == 21 && Size(chunks, 2) == 42;
    var k := Truncation(Toy(), base, CHUNK_SIZE, chunks, 45);
    assert k == 1 && chunks[..1] == [[1]] && [[1]][1..] == [];
    assert Concat([[1]]) == [1] + Concat([]);
  }

  lemma EncodedSize(a: Aead, base: seq<byte>, chunks: seq<seq<byte>>)
    requires |base| == NONCE_SIZE && Opens(a) && Sized(chunks, MAX_PAYLOAD)
    ensures |Encoded(a, base, CHUNK_SIZE, chunks)| == HEADER_SIZE + Size(chunks, |chunks|)
  {
    FramesSize(a, base, 0, chunks);
  }

  lemma {:induction false} FramesSize(a: Aead, base: seq<byte>, i: nat, chunks: seq<seq<byte>>)
    requires |base| == NONCE_SIZE && Opens(a) && Sized(chunks, MAX_PAYLOAD)
    ensures |Frames(a, base, i, chunks)| == Size(chunks, |chunks|)
    decreases chunks
  {
    if chunks != [] {
      FramesSize(a, base, i + 1, chunks[1..]);
      SizeTail(chunks, |chunks| - 1);
    }
  }

  // ---- Nonces ------------------------------------------------------------------------------

  /** Within one file two frames share a nonce exactly when their numbers agree modulo 2^32. */
  lemma NoncesRepeatOnlyAtWraparound(base: seq<byte>, i: nat, j: nat)
    requires |base| == NONCE_SIZE
    ensures Nonce(base, i % TWO32) == Nonce(base, j % TWO32) <==> i % TWO32 == j % TWO32
    ensures i < j < TWO32 ==> Nonce(base, i % TWO32) != Nonce(base, j % TWO32)
  {
    assert Nonce(base, i % TWO32)[8..] == Le32(i % TWO32);
    assert Nonce(base, j % TWO32)[8..] == Le32(j % TWO32);
    Le32Decodes(i % TWO32);
    Le32Decodes(j % TWO32);
  }
}
