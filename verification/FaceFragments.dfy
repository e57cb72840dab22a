/** Cutting a face image into chunks of 600 pixels. The image arrives as bytes, two per pixel,
    big-endian; one array of 600 pixels is reused for every chunk. */
module FaceFragments {

  import opened Common

  const PIXELS_PER_CHUNK: nat := 600
  const TOTAL_PIXELS: nat := 17664

  /** DisplayFaceImageRGBChunk, without the fields copied from the request. */
  datatype FaceChunk = FaceChunk(faceData: seq<uint16>, numPixels: uint16, chunkIndex: uint8, numChunks: uint8)

  function BigEndian(hi: byte, lo: byte): uint16 {
    hi * 256 + lo
  }

  function ToUint8(x: int): uint8 {
    x % 0x100
  }

  function ToUint16(x: int): (r: uint16)
    ensures 0 <= x < 0x1_0000 ==> r == x
  {
    x % 0x1_0000
  }

  /** The first n pixels of the data. */
  function Pixels(data: seq<byte>, n: nat): (p: seq<uint16>)
    requires 2 * n <= |data|
    ensures |p| == n
  {
    seq(n, j requires 0 <= j < n => BigEndian(data[2 * j], data[2 * j + 1]))
  }

  /** Pixels written out as bytes, high byte first. */
  function HighByteFirst(pixels: seq<uint16>): (bytes: seq<byte>)
    ensures |bytes| == 2 * |pixels|
  {
    if pixels == [] then []
    else
      var p := pixels[|pixels| - 1];
      HighByteFirst(pixels[..|pixels| - 1]) + [p / 256, p % 256]
  }

  /** The pixels are the data: written out again they give its bytes. */
  lemma {:induction false} PixelsAreTheData(data: seq<byte>, n: nat)
    requires 2 * n <= |data|
    ensures HighByteFirst(Pixels(data, n)) == data[..2 * n]
  {
    if n > 0 {
      PixelsAreTheData(data, n - 1);
      assert Pixels(data, n)[..n - 1] == Pixels(data, n - 1);
      assert data[..2 * n] == data[..2 * (n - 1)] + [data[2 * n - 2], data[2 * n - 1]];
    }
  }

  /** The pixels, written out again high byte first, are the data as far as they go. */
  ghost predicate IsDataUpTo(pixels: seq<uint16>, data: seq<byte>) {
    2 * |pixels| <= |data| && HighByteFirst(pixels) == data[..2 * |pixels|]
  }

  /** What the receiver keeps of the chunks: the first NumPixels of each, in order. */
  function Received(chunks: seq<FaceChunk>): seq<uint16> {
    if chunks == [] then []
    else
      var c := chunks[|chunks| - 1];
      Received(chunks[..|chunks| - 1]) + (if c.numPixels <= |c.faceData| then c.faceData[..c.numPixels] else [])
  }

  /** Exactly when no slice or array index is out of range. */
  predicate InBounds(data: seq<byte>, chunkCount: int, totalPixels: int) {
    chunkCount <= 0
    || ((chunkCount - 1) * 600 <= totalPixels <= chunkCount * 600
        && 2 * totalPixels <= |data|)
  }

  /** Chunk i of n as it is sent: always 600 pixels long, its number and count truncated to bytes. */
  ghost predicate SentAs(c: FaceChunk, i: int, n: int, pixels: int) {
    |c.faceData| == 600 && c.chunkIndex == i % 256 && c.numChunks == n % 256 && c.numPixels == pixels
  }

  /** The inner loop: decode one chunk's bytes into the shared array. An image that ends before
      or more than 600 pixels after the chunk's start is a run-time error, reported as `ok`. */
  method Convert(data: seq<byte>, firstByte: int, pixelCount: int, converted: array<uint16>) returns (ok: bool)
    requires converted.Length == PIXELS_PER_CHUNK && firstByte >= 0
    modifies converted
    ensures ok <==> 0 <= pixelCount <= PIXELS_PER_CHUNK && firstByte + 2 * pixelCount <= |data|
    ensures ok ==> forall j | 0 <= j < pixelCount ::
              converted[j] == BigEndian(data[firstByte + 2 * j], data[firstByte + 2 * j + 1])
    ensures ok ==> forall j | 0 <= j < pixelCount ::
              converted[j] / 256 == data[firstByte + 2 * j] && converted[j] % 256 == data[firstByte + 2 * j + 1]
  {
    var finalByte := firstByte + pixelCount * 2;
    if !(firstByte <= finalByte <= |data|) {
      return false;
    }
    var sliced := data[firstByte..finalByte];
    var j := 0;
    while j < pixelCount
      invariant 0 <= j <= pixelCount && j <= PIXELS_PER_CHUNK
      invariant forall k | 0 <= k < j ::
                  converted[k] == BigEndian(data[firstByte + 2 * k], data[firstByte + 2 * k + 1])
    {
      if j >= converted.Length {
        return false;
      }
      converted[j] := BigEndian(sliced[j * 2], sliced[j * 2 + 1]);
      j := j + 1;
    }
    return true;
  }

  function PixelsIn(i: int, chunkCount: int, totalPixels: int): int {
    if i == chunkCount - 1 then totalPixels - 600 * i else PIXELS_PER_CHUNK
  }

  ghost predicate Decodes(c: FaceChunk, data: seq<byte>, firstByte: nat) {
    c.numPixels <= |c.faceData| && firstByte + 2 * c.numPixels <= |data|
    && forall j | 0 <= j < c.numPixels ::
         c.faceData[j] == BigEndian(data[firstByte + 2 * j], data[firstByte + 2 * j + 1])
  }

  /** One turn of the outer loop up to the write. */
  method MakeChunk(data: seq<byte>, i: nat, chunkCount: int, totalPixels: int, converted: array<uint16>)
    returns (ok: bool, message: FaceChunk)
    requires converted.Length == PIXELS_PER_CHUNK
    modifies converted
    ensures ok <==> 0 <= PixelsIn(i, chunkCount, totalPixels) <= PIXELS_PER_CHUNK
                    && 1200 * i + 2 * PixelsIn(i, chunkCount, totalPixels) <= |data|
    ensures ok ==> SentAs(message, i, chunkCount, PixelsIn(i, chunkCount, totalPixels))
    ensures ok ==> Decodes(message, data, 1200 * i)
  {
    var pixelCount := if i == chunkCount - 1 then totalPixels - 600 * i else PIXELS_PER_CHUNK;
    ok := Convert(data, 1200 * i, pixelCount, converted);
    message := FaceChunk(converted[..], ToUint16(pixelCount), ToUint8(i), ToUint8(chunkCount));
  }

  /** What has been received so far decodes the first n pixels. */
  ghost predicate ReceivedPixels(sent: seq<FaceChunk>, data: seq<byte>, n: nat) {
    2 * n <= |data| && Received(sent) == Pixels(data, n)
  }

  lemma ReceivedNone(data: seq<byte>)
    ensures ReceivedPixels([], data, 0)
  {
  }

  lemma ReceivedAppend(sent: seq<FaceChunk>, c: FaceChunk, data: seq<byte>, n: nat, i: nat, count: int, m: nat)
    requires n == 600 * i && Decodes(c, data, 2 * n) && SentAs(c, i, count, m)
    requires ReceivedPixels(sent, data, n)
    ensures ReceivedPixels(sent + [c], data, n + m)
  {
    assert (sent + [c])[..|sent|] == sent;
    assert Received(sent + [c]) == Received(sent) + c.faceData[..m];
  }

  lemma ReceivedIsData(sent: seq<FaceChunk>, data: seq<byte>, n: nat)
    requires ReceivedPixels(sent, data, n)
    ensures IsDataUpTo(Received(sent), data) && |Received(sent)| == n && 2 * n <= |data|
  {
    PixelsAreTheData(data, n);
  }

  datatype Outcome = Complete | WriteFailed | Crashed

  /** SendFaceDataAsChunks, with 600 pixels per chunk as its only caller has it; `failAt` is the
      chunk whose write to the engine fails, if any. All chunks go out exactly when the bounds
      hold and no write fails, and then what is received is the decoding of the whole image.
      In every case what went out decodes a prefix of it. */
  method SendFaceDataAsChunks(data: seq<byte>, chunkCount: int, totalPixels: int, failAt: int)
    returns (sent: seq<FaceChunk>, outcome: Outcome)
    ensures outcome == Complete <==> InBounds(data, chunkCount, totalPixels) && !(0 <= failAt < chunkCount)
    ensures outcome == Complete ==> |sent| == if chunkCount < 0 then 0 else chunkCount
    ensures outcome == Complete && chunkCount > 0 ==> |Received(sent)| == totalPixels
    ensures IsDataUpTo(Received(sent), data)
    ensures forall i | 0 <= i < |sent| ::
              SentAs(sent[i], i, chunkCount, if i == chunkCount - 1 then totalPixels - 600 * i else 600)
  {
    ReceivedNone(data);
    hide Received, Pixels, Decodes, SentAs, IsDataUpTo, ReceivedPixels;
    var converted := new uint16[PIXELS_PER_CHUNK](_ => 0);
    sent, outcome := [], Complete;
    var i := 0;
    while i < chunkCount
      invariant outcome == Complete && i == |sent| && (i <= chunkCount || i == 0)
      invariant 0 < i == chunkCount ==> InBounds(data, chunkCount, totalPixels)
      invariant 0 <= failAt < chunkCount ==> i <= failAt
      invariant forall k | 0 <= k < i :: SentAs(sent[k], k, chunkCount, PixelsIn(k, chunkCount, totalPixels))
      invariant 0 < i == chunkCount ==> totalPixels >= 0
      invariant ReceivedPixels(sent, data, if 0 < i == chunkCount then totalPixels else 600 * i)
    {
      var ok, message := MakeChunk(data, i, chunkCount, totalPixels, converted);
      if !ok {
        ReceivedIsData(sent, data, 600 * i);
        return sent, Crashed;
      }
      ReceivedAppend(sent, message, data, 600 * i, i, chunkCount, PixelsIn(i, chunkCount, totalPixels));
      if i == failAt {
        ReceivedIsData(sent + [message], data, 600 * i + PixelsIn(i, chunkCount, totalPixels));
        return sent + [message], WriteFailed;
      }
      sent := sent + [message];
      i := i + 1;
    }
    ReceivedIsData(sent, data, if chunkCount > 0 then totalPixels else 0);
  }

  // ---------------------------------------------------------------- how many chunks

  /** The count DisplayFaceImageRGB computes. */
  function ChunkCount(totalPixels: nat, pixelsPerChunk: nat): nat
    requires pixelsPerChunk > 0
  {
    (totalPixels + pixelsPerChunk + 1) / pixelsPerChunk
  }

  /** The count formula is the least number of chunks that cover the image exactly when the
      last chunk is neither full nor one pixel short of full. */
  lemma CountIsCeilingIff(totalPixels: nat, pixelsPerChunk: nat)
    requires totalPixels >= 1 && pixelsPerChunk >= 2
    ensures var n, p, count := totalPixels, pixelsPerChunk, ChunkCount(totalPixels, pixelsPerChunk);
      (count - 1) * p < n <= count * p <==> n % p != 0 && n % p != p - 1
  {
    var p, q, r := pixelsPerChunk, totalPixels / pixelsPerChunk, totalPixels % pixelsPerChunk;
    var count := ChunkCount(totalPixels, p);
    assert totalPixels == q * p + r;
    if r == p - 1 {
      QuotientIs(totalPixels + p + 1, p, q + 2, 0);
    } else {
      QuotientIs(totalPixels + p + 1, p, q + 1, r + 1);
    }
  }

  lemma QuotientIs(x: nat, p: nat, q: nat, r: nat)
    requires p > 0 && r < p && x == q * p + r
    ensures x / p == q
  {
    var k := x / p;
    assert x == k * p + x % p;
    assert k < q ==> (k + 1) * p <= q * p;
    assert k > q ==> (q + 1) * p <= k * p;
  }

  /** The face of the robot meets every condition: 30 chunks, the last of 264 pixels. */
  lemma FaceImageIsCovered(data: seq<byte>)
    requires |data| == 2 * TOTAL_PIXELS
    ensures ChunkCount(TOTAL_PIXELS, PIXELS_PER_CHUNK) == 30
    ensures InBounds(data, ChunkCount(TOTAL_PIXELS, PIXELS_PER_CHUNK), TOTAL_PIXELS)
  {
  }
}
