/** getFile's download, stated on the stream of input reports as a value: a size request
    (command 0x2D) whose reply is reversed and combined by shiftBytes, then chunk
    requests (command 0x2E) until the bytes read reach that size. */
module Transfer {
  import opened Bytes
  import opened Results
  import opened Frame
  import opened Combine
  import opened Reassembly

  const FileGroup: byte := 0x00
  const SizeCommand: byte := 0x2D
  const ChunkCommand: byte := 0x2E

  /** The frame getFile sends to ask for the size of file `fileToRead`. */
  function SizeRequest(fileToRead: byte): seq<byte>
  {
    BuildFrame(ReadFlags, FileGroup, SizeCommand, [fileToRead])
  }

  /** The frame getFile sends for each chunk of the file. */
  function ChunkRequest(): seq<byte>
  {
    BuildFrame(ReadFlags, FileGroup, ChunkCommand, [])
  }

  /** The two read frames getFile sends, byte for byte: flags 0xC0, sequence 0, the
      length of the data plus two, length MSB 0, the command, group 0x00, the data. */
  lemma RequestFrames(fileToRead: byte)
    ensures SizeRequest(fileToRead) == [0xC0, 0x00, 0x03, 0x00, 0x2D, 0x00, fileToRead]
    ensures ChunkRequest() == [0xC0, 0x00, 0x02, 0x00, 0x2E, 0x00]
  {
  }

  /** The size getFile derives from the size reply: reversed, then combined by shiftBytes. */
  function FileSize(answer: seq<byte>): int
  {
    ShiftSum(Reverse(answer))
  }

  /** The device sends the size least significant byte first; for replies of up to three
      bytes getFile reads exactly that value. */
  lemma FileSizeIsLittleEndian(answer: seq<byte>)
    requires |answer| <= 3
    ensures FileSize(answer) == LittleEndian(answer)
    ensures FileSize(answer) < Pow256(|answer|)
  {
    ShiftSumBigEndian(Reverse(answer));
    BigEndianOfReverse(answer);
  }

  /** How a download ends: its result, the data of every chunk request that succeeded
      (including those received before), the number of chunk requests sent, and the
      number of input reports consumed. */
  datatype Download = Download(result: Result<seq<byte>>, chunks: seq<Chunk>, requests: nat, used: nat)

  /** getFile's loop from the point where `received` chunks have been read: while the
      bytes read are fewer than `size`, request a chunk and append it; a failed request
      ends the download with that failure. */
  function DownloadFrom(size: int, received: seq<Chunk>, stream: seq<Chunk>): (d: Download)
    ensures d.used <= |stream|
    decreases |stream|
  {
    if |Concat(received)| >= size then Download(Ok(Concat(received)), received, 0, 0)
    else
      var reply := Receive(stream);
      match reply.result
      case Err(e) => Download(Err(e), received, 1, reply.used)
      case Ok(chunk) =>
        var rest := DownloadFrom(size, received + [chunk], stream[reply.used..]);
        rest.(requests := rest.requests + 1, used := reply.used + rest.used)
  }

  /** DownloadFrom once the bytes read reach the size: the download is over. */
  lemma DownloadDone(size: int, received: seq<Chunk>, stream: seq<Chunk>)
    requires |Concat(received)| >= size
    ensures DownloadFrom(size, received, stream) == Download(Ok(Concat(received)), received, 0, 0)
  {
  }

  /** DownloadFrom while short of the size, when the chunk request succeeds: one more
      request, then the rest of the download from the reports after the reply. */
  lemma DownloadStep(size: int, received: seq<Chunk>, stream: seq<Chunk>)
    requires |Concat(received)| < size && Receive(stream).result.Ok?
    ensures var reply := Receive(stream);
      var rest := DownloadFrom(size, received + [reply.result.value], stream[reply.used..]);
      DownloadFrom(size, received, stream) ==
        rest.(requests := rest.requests + 1, used := reply.used + rest.used)
  {
  }

  /** DownloadFrom while short of the size, when the chunk request fails. */
  lemma DownloadFails(size: int, received: seq<Chunk>, stream: seq<Chunk>)
    requires |Concat(received)| < size && Receive(stream).result.Err?
    ensures DownloadFrom(size, received, stream) ==
      Download(Err(Receive(stream).result.error), received, 1, |stream|)
  {
  }

  /** The whole of getFile once connected: the size exchange, then the download. */
  function FetchFile(stream: seq<Chunk>): (d: Download)
    ensures d.used <= |stream|
  {
    var reply := Receive(stream);
    match reply.result
    case Err(e) => Download(Err(e), [], 0, reply.used)
    case Ok(answer) =>
      var d := DownloadFrom(FileSize(answer), [], stream[reply.used..]);
      d.(used := reply.used + d.used)
  }

  /** The download keeps requesting exactly while it is short of `size`: a successful one
      returns every chunk in order, at least `size` bytes, after one request per chunk and
      none once the size was reached; a failed one was short when its last request was
      sent, and consumed the whole stream. */
  lemma {:induction false} DownloadStopsAtSize(size: int, received: seq<Chunk>, stream: seq<Chunk>)
    ensures var d := DownloadFrom(size, received, stream);
      received <= d.chunks &&
      (forall j :: |received| <= j < |d.chunks| ==> |PrefixBytes(d.chunks, j)| < size) &&
      (d.result.Ok? ==>
        d.result.value == Concat(d.chunks) && |d.result.value| >= size &&
        d.requests == |d.chunks| - |received|) &&
      (d.result.Err? ==>
        |Concat(d.chunks)| < size && d.used == |stream| &&
        d.requests == |d.chunks| - |received| + 1)
    decreases |stream|
  {
    var d := DownloadFrom(size, received, stream);
    if |Concat(received)| < size {
      var reply := Receive(stream);
      if reply.result.Ok? {
        var next := received + [reply.result.value];
        DownloadStopsAtSize(size, next, stream[reply.used..]);
        assert next[..|received|] == received;
        assert d.chunks == DownloadFrom(size, next, stream[reply.used..]).chunks;
        forall j | |received| <= j < |d.chunks|
          ensures |PrefixBytes(d.chunks, j)| < size
        {
          if j == |received| {
            PrefixBytesAll(received);
            assert d.chunks[..j] == received;
          }
        }
      }
    }
  }

  /** A file announced as empty (or negative, after a four-byte size wraps) is returned
      at once, with no chunk request. */
  lemma EmptyFileNeedsNoChunk(stream: seq<Chunk>)
    requires Receive(stream).result.Ok? && FileSize(Receive(stream).result.value) <= 0
    ensures var d := FetchFile(stream);
      d.result == Ok([]) && d.requests == 0 && d.used == Receive(stream).used
  {
  }
}
