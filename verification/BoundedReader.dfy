/** Reading an Artifact's raw content from a response stream, chunk by chunk and within the cap. */
module BoundedReader {
  import opened Wrappers
  import opened Utf8
  import opened ArtifactFields

  /** What one read of the stream yields before its end. */
  datatype Chunk = Data(bytes: seq<Byte>) | NotBytes | Broken(code: string)

  datatype Body = Whole(bytes: seq<Byte>) | Stream(chunks: seq<Chunk>)

  const TOO_LARGE := "workspace_artifact_content_too_large"

  function Joined(parts: seq<seq<Byte>>): (all: seq<Byte>)
    ensures |all| == TotalLength(parts)
  {
    if parts == [] then [] else Joined(parts[..|parts| - 1]) + parts[|parts| - 1]
  }

  function TotalLength(parts: seq<seq<Byte>>): nat {
    if parts == [] then 0 else TotalLength(parts[..|parts| - 1]) + |parts[|parts| - 1]|
  }

  function DataOf(chunks: seq<Chunk>): seq<seq<Byte>>
    requires AllData(chunks)
  {
    seq(|chunks|, i requires 0 <= i < |chunks| => chunks[i].bytes)
  }

  predicate AllData(chunks: seq<Chunk>) { forall i | 0 <= i < |chunks| :: chunks[i].Data? }

  /** The announced length, if any, is a decimal within the cap; a stream has to keep it. */
  ghost predicate Announces(contentLength: Option<Text>, body: Body, size: nat) {
    contentLength.Some? ==>
      exists n: nat :: SpellsHeaderSize(Str(contentLength.value), n) && (body.Stream? ==> n == size)
  }

  /** When a response is read, and as what. */
  ghost predicate Readable(contentLength: Option<Text>, body: Body, content: seq<Byte>) {
    && Announces(contentLength, body, |content|) && |content| <= 8 * 1024 * 1024
    && match body
       case Whole(bytes) => content == bytes
       case Stream(chunks) => AllData(chunks) && content == Joined(DataOf(chunks))
  }

  lemma AnnouncedIsMeant(contentLength: Option<Text>, body: Body, size: nat)
    ensures Announces(contentLength, body, size) <==>
              (contentLength.Some? ==>
                 && IsDecimal(contentLength.value) && DecimalValue(contentLength.value) <= MAX_BYTES
                 && (body.Stream? ==> DecimalValue(contentLength.value) == size))
  {
    if contentLength.Some? {
      var v := Str(contentLength.value);
      forall n: nat ensures HeaderByteSize(v) == Ok(n) <==> SpellsHeaderSize(v, n) {
        HeaderSizeIsMeant(v, n);
      }
      if IsDecimal(contentLength.value) && DecimalValue(contentLength.value) <= MAX_BYTES {
        assert HeaderByteSize(v) == Ok(DecimalValue(contentLength.value));
      }
    }
  }

  /** Some beginning of the stream is all bytes, and too many. */
  ghost predicate Overflows(chunks: seq<Chunk>) {
    exists n | 0 <= n <= |chunks| :: AllData(chunks[..n]) && TotalLength(DataOf(chunks[..n])) > 8 * 1024 * 1024
  }

  lemma WithinIsNoOverflow(chunks: seq<Chunk>, n: nat)
    requires n <= |chunks| && AllData(chunks[..n]) && TotalLength(DataOf(chunks[..n])) <= MAX_BYTES
    requires n == |chunks| || !chunks[n].Data?
    ensures !Overflows(chunks)
  {
    forall k | n < k <= |chunks| ensures !AllData(chunks[..k]) {
      assert chunks[..k][n] == chunks[n];
    }
    forall k | 0 <= k <= |chunks| && AllData(chunks[..k]) ensures TotalLength(DataOf(chunks[..k])) <= MAX_BYTES {
      PrefixIsShorter(DataOf(chunks[..n]), k);
      assert DataOf(chunks[..n])[..k] == DataOf(chunks[..k]);
    }
  }

  lemma {:induction false} PrefixIsShorter(parts: seq<seq<Byte>>, n: nat)
    requires n <= |parts|
    ensures TotalLength(parts[..n]) <= TotalLength(parts)
    decreases |parts|
  {
    if n < |parts| {
      PrefixIsShorter(parts[..|parts| - 1], n);
      assert parts[..|parts| - 1][..n] == parts[..n];
    } else {
      assert parts[..n] == parts;
    }
  }

  const TRANSPORT_INVALID := "workspace_artifact_content_transport_invalid"

  /** Succeeds exactly on the readable responses, with the concatenation of the chunks. */
  method ReadBounded(contentLength: Option<Text>, body: Body) returns (r: Result<array<Byte>>, cancelled: bool)
    ensures r.Ok? ==> fresh(r.value) && Readable(contentLength, body, r.value[..])
    ensures r.Err? ==> forall content :: !Readable(contentLength, body, content)
    ensures cancelled ==> r == Err(TOO_LARGE) && body.Stream? && Overflows(body.chunks)
    ensures body.Stream? && Overflows(body.chunks) && contentLength.None? ==> cancelled
  {
    cancelled := false;
    forall size: nat
      ensures Announces(contentLength, body, size) <==>
                (contentLength.Some? ==>
                   && IsDecimal(contentLength.value) && DecimalValue(contentLength.value) <= MAX_BYTES
                   && (body.Stream? ==> DecimalValue(contentLength.value) == size))
    {
      AnnouncedIsMeant(contentLength, body, size);
    }
    if contentLength.Some? && (!IsDecimal(contentLength.value) || DecimalValue(contentLength.value) > MAX_BYTES) {
      return Err(TOO_LARGE), false;
    }
    if body.Whole? {
      if |body.bytes| > MAX_BYTES {
        return Err(TOO_LARGE), false;
      }
      var whole := new Byte[|body.bytes|](i requires 0 <= i < |body.bytes| => body.bytes[i]);
      assert whole[..] == body.bytes;
      return Ok(whole), false;
    }
    var chunks: Result<seq<seq<Byte>>>;
    chunks, cancelled := ReadChunks(body.chunks);
    if chunks.Err? {
      return Err(chunks.code), cancelled;
    }
    var total := TotalLength(chunks.value);
    if contentLength.Some? && DecimalValue(contentLength.value) != total {
      return Err("workspace_artifact_content_size_mismatch"), false;
    }
    var bytes := CopyChunks(chunks.value, total);
    r := Ok(bytes);
  }

  /** A stream that keeps within the cap to its end. */
  predicate WithinCap(chunks: seq<Chunk>) { AllData(chunks) && TotalLength(DataOf(chunks)) <= MAX_BYTES }

  lemma {:induction false} LongPrefixIsTooLong(chunks: seq<Chunk>, n: nat)
    requires n <= |chunks| && AllData(chunks[..n]) && TotalLength(DataOf(chunks[..n])) > MAX_BYTES
    ensures !WithinCap(chunks)
  {
    if AllData(chunks) {
      PrefixIsShorter(DataOf(chunks), n);
      assert DataOf(chunks)[..n] == DataOf(chunks[..n]);
    }
  }

  /** The reading loop, with its running total. */
  method ReadChunks(stream: seq<Chunk>) returns (r: Result<seq<seq<Byte>>>, cancelled: bool)
    ensures r.Ok? <==> WithinCap(stream)
    ensures r.Ok? ==> r.value == DataOf(stream)
    ensures cancelled ==> r == Err(TOO_LARGE)
    ensures cancelled <==> Overflows(stream)
  {
    var chunks: seq<seq<Byte>> := [];
    var total := 0;
    cancelled := false;
    while |chunks| < |stream|
      invariant |chunks| <= |stream|
      invariant AllData(stream[..|chunks|]) && chunks == DataOf(stream[..|chunks|])
      invariant total == TotalLength(chunks) <= MAX_BYTES
    {
      var next := stream[|chunks|];
      if !next.Data? {
        WithinIsNoOverflow(stream, |chunks|);
      }
      if next.Broken? {
        return Err(next.code), false;
      }
      if next.NotBytes? {
        return Err(TRANSPORT_INVALID), false;
      }
      total := total + |next.bytes|;
      ghost var more := chunks + [next.bytes];
      assert more[..|chunks|] == chunks;
      assert more == DataOf(stream[..|more|]);
      if total > MAX_BYTES {
        LongPrefixIsTooLong(stream, |more|);
        assert Overflows(stream);
        return Err(TOO_LARGE), true;
      }
      chunks := chunks + [next.bytes];
    }
    assert stream[..|chunks|] == stream;
    WithinIsNoOverflow(stream, |chunks|);
    r := Ok(chunks);
  }

  /** Copy the chunks one behind the other into a buffer of their total length. */
  method CopyChunks(chunks: seq<seq<Byte>>, total: nat) returns (bytes: array<Byte>)
    requires total == TotalLength(chunks)
    ensures fresh(bytes) && bytes[..] == Joined(chunks)
  {
    bytes := new Byte[total];
    var offset, n := 0, 0;
    while n < |chunks|
      invariant 0 <= n <= |chunks|
      invariant offset == TotalLength(chunks[..n]) <= total
      invariant bytes[..offset] == Joined(chunks[..n])
    {
      var chunk := chunks[n];
      assert chunks[..n + 1][..n] == chunks[..n];
      PrefixIsShorter(chunks, n + 1);
      forall i | 0 <= i < |chunk| {
        bytes[offset + i] := chunk[i];
      }
      assert bytes[..offset + |chunk|] == Joined(chunks[..n]) + chunk;
      offset := offset + |chunk|;
      n := n + 1;
    }
    assert chunks[..n] == chunks;
  }
}
