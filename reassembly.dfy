/** How receiveCommand turns the input reports that arrive after a read command into the
    reply's data bytes, stated on the stream of reports as a value. The stream is the
    finite sequence of reports in arrival order; running out of reports stands for the
    wait that never ends or times out. */
module Reassembly {
  import opened Bytes
  import opened Results
  import opened Frame

  /** Payload bytes that the first input report of a reply carries after its header. */
  const FirstReportPayload := 60

  /** The first-stage listener's test: the buffer holds a header and at least the
      declared number of bytes after it. */
  predicate FirstStageDone(readData: seq<byte>)
  {
    |readData| >= 4 && |readData| >= DeclaredLength(readData) + 4
  }

  /** The first n' >= n such that the first n' reports complete the first stage. */
  function FirstStageFrom(stream: seq<Chunk>, n: nat): (r: Option<nat>)
    requires 1 <= n
    ensures r.Some? ==>
      n <= r.value <= |stream| && FirstStageDone(PrefixBytes(stream, r.value)) &&
      forall j :: n <= j < r.value ==> !FirstStageDone(PrefixBytes(stream, j))
    ensures r.None? ==> forall j :: n <= j <= |stream| ==> !FirstStageDone(PrefixBytes(stream, j))
    decreases |stream| + 1 - n
  {
    if n > |stream| then None
    else if FirstStageDone(PrefixBytes(stream, n)) then Some(n)
    else FirstStageFrom(stream, n + 1)
  }

  /** How many reports the first stage consumes: the listener appends each report to
      readData and resolves at the first report after which the test holds. None when
      the stream ends first. */
  function FirstStage(stream: seq<Chunk>): (r: Option<nat>)
    ensures r.Some? ==>
      1 <= r.value <= |stream| && FirstStageDone(PrefixBytes(stream, r.value)) &&
      forall j :: 0 <= j < r.value ==> !FirstStageDone(PrefixBytes(stream, j))
    ensures r.None? ==> forall j :: 0 <= j <= |stream| ==> !FirstStageDone(PrefixBytes(stream, j))
  {
    PrefixBytesZero(stream);
    FirstStageFrom(stream, 1)
  }

  /** The first m' >= m such that the first m' reports bring at least `owed` bytes. */
  function ContinuationFrom(owed: int, stream: seq<Chunk>, m: nat): (r: Option<nat>)
    requires m <= |stream|
    ensures r.Some? ==>
      m <= r.value <= |stream| && |PrefixBytes(stream, r.value)| >= owed &&
      forall j :: m <= j < r.value ==> |PrefixBytes(stream, j)| < owed
    ensures r.None? ==> forall j :: m <= j <= |stream| ==> |PrefixBytes(stream, j)| < owed
    decreases |stream| - m
  {
    if |PrefixBytes(stream, m)| >= owed then Some(m)
    else if m == |stream| then None
    else ContinuationFrom(owed, stream, m + 1)
  }

  /** How many reports the continuation loop consumes: it subtracts each report's length
      from `owed` and stops the first time nothing is owed any more. None when the stream
      ends first. */
  function Continuation(owed: int, stream: seq<Chunk>): (r: Option<nat>)
    ensures r.Some? ==>
      r.value <= |stream| && |PrefixBytes(stream, r.value)| >= owed &&
      forall j :: 0 <= j < r.value ==> |PrefixBytes(stream, j)| < owed
    ensures r.None? ==> forall j :: 0 <= j <= |stream| ==> |PrefixBytes(stream, j)| < owed
  {
    PrefixBytesZero(stream);
    ContinuationFrom(owed, stream, 0)
  }

  /** The data receiveCommand resolves with (or the failure it ends in), and how many
      input reports it consumed. */
  datatype Reply = Reply(result: Result<seq<byte>>, used: nat)

  /** receiveCommand's reassembly as written: the first stage waits for the declared
      length; a declared length up to 60 gives exactly that many bytes after the header;
      above 60 all bytes after the header are kept and whole further reports are
      appended until dataLength - 60 more bytes have come. */
  function Receive(stream: seq<Chunk>): (r: Reply)
    ensures r.used <= |stream|
    ensures r.result.Ok? ==> 1 <= r.used
    ensures r.result.Err? ==> r.used == |stream|
    ensures r.result == Err(FirstChunkTimeout) <==> stream == []
  {
    match FirstStage(stream)
    case None =>
      Reply(Err(if stream == [] then FirstChunkTimeout else Stalled), |stream|)
    case Some(n) =>
      var responseData := PrefixBytes(stream, n);
      var dataLength := DeclaredLength(responseData);
      if dataLength > FirstReportPayload then
        match Continuation(dataLength - FirstReportPayload, stream[n..])
        case None => Reply(Err(ContinuationTimeout), |stream|)
        case Some(m) => Reply(Ok(responseData[4..] + PrefixBytes(stream[n..], m)), n + m)
      else
        Reply(Ok(responseData[4..4 + dataLength]), n)
  }

  /** The corrected reassembly: the first stage has already waited for every declared
      byte, so nothing more is owed and the reply is exactly the declared payload. */
  function ReceiveCorrected(stream: seq<Chunk>): (r: Reply)
    ensures r.used <= |stream|
    ensures r.result.Ok? ==>
      1 <= r.used && |PrefixBytes(stream, r.used)| >= 4 &&
      |r.result.value| == DeclaredLength(PrefixBytes(stream, r.used))
    ensures r.result.Err? ==> r.used == |stream| && r.result.error != ContinuationTimeout
  {
    match FirstStage(stream)
    case None =>
      Reply(Err(if stream == [] then FirstChunkTimeout else Stalled), |stream|)
    case Some(n) =>
      var responseData := PrefixBytes(stream, n);
      Reply(Ok(responseData[4..4 + DeclaredLength(responseData)]), n)
  }

  /** Receive once the first stage has taken n reports and a large reply's continuation
      m more. */
  lemma ReceiveLargeUnfold(stream: seq<Chunk>, n: nat, m: nat)
    requires FirstStage(stream) == Some(n)
    requires DeclaredLength(PrefixBytes(stream, n)) > FirstReportPayload
    requires Continuation(DeclaredLength(PrefixBytes(stream, n)) - FirstReportPayload, stream[n..]) == Some(m)
    ensures Receive(stream) == Reply(Ok(PrefixBytes(stream, n)[4..] + PrefixBytes(stream[n..], m)), n + m)
  {
  }

  /** Receive resolves only after its first stage, and for a large reply only after
      its continuation, has completed. */
  lemma ReceiveOkShape(stream: seq<Chunk>)
    requires Receive(stream).result.Ok?
    ensures FirstStage(stream).Some?
    ensures var n := FirstStage(stream).value;
      var dataLength := DeclaredLength(PrefixBytes(stream, n));
      dataLength > FirstReportPayload ==>
        Continuation(dataLength - FirstReportPayload, stream[n..]).Some?
  {
  }

  /** Receive once the first stage has taken n reports of a small reply. */
  lemma ReceiveSmallUnfold(stream: seq<Chunk>, n: nat)
    requires FirstStage(stream) == Some(n)
    requires DeclaredLength(PrefixBytes(stream, n)) <= FirstReportPayload
    ensures var buf := PrefixBytes(stream, n);
      Receive(stream) == Reply(Ok(buf[4..4 + DeclaredLength(buf)]), n)
  {
  }

  /** The first stage ends at n when n reports complete it and no fewer do. */
  lemma FirstStageAt(stream: seq<Chunk>, n: nat)
    requires 1 <= n <= |stream| && FirstStageDone(PrefixBytes(stream, n))
    requires forall j :: 0 <= j < n ==> !FirstStageDone(PrefixBytes(stream, j))
    ensures FirstStage(stream) == Some(n)
  {
  }

  /** Receive when no prefix of the stream completes the first stage. */
  lemma ReceiveFirstStageFails(stream: seq<Chunk>)
    requires forall j :: 0 <= j <= |stream| ==> !FirstStageDone(PrefixBytes(stream, j))
    ensures Receive(stream) == Reply(Err(if stream == [] then FirstChunkTimeout else Stalled), |stream|)
  {
    assert FirstStage(stream).None?;
  }

  /** The continuation ends at m when m reports bring what is owed and no fewer do. */
  lemma ContinuationAt(owed: int, stream: seq<Chunk>, m: nat)
    requires m <= |stream| && |PrefixBytes(stream, m)| >= owed
    requires forall j :: 0 <= j < m ==> |PrefixBytes(stream, j)| < owed
    ensures Continuation(owed, stream) == Some(m)
  {
  }

  /** Receive when the continuation of a large reply never gets what is owed. */
  lemma ReceiveContinuationFails(stream: seq<Chunk>, n: nat)
    requires FirstStage(stream) == Some(n)
    requires DeclaredLength(PrefixBytes(stream, n)) > FirstReportPayload
    requires var owed := DeclaredLength(PrefixBytes(stream, n)) - FirstReportPayload;
      forall j :: 0 <= j <= |stream| - n ==> |PrefixBytes(stream[n..], j)| < owed
    ensures Receive(stream) == Reply(Err(ContinuationTimeout), |stream|)
  {
    var owed := DeclaredLength(PrefixBytes(stream, n)) - FirstReportPayload;
    assert Continuation(owed, stream[n..]).None?;
  }

  /** A reply header: any flags and sequence bytes, then the length of `payload`. */
  predicate IsReplyHeader(header: seq<byte>, payload: seq<byte>)
  {
    |header| == 4 && DeclaredLength(header) == |payload|
  }

  /** When the reports carry a header, its payload and possibly more, the first stage
      ends with the whole payload in the buffer, under the same header. */
  lemma FirstStageOnReply(stream: seq<Chunk>, header: seq<byte>, payload: seq<byte>, rest: seq<byte>)
    requires IsReplyHeader(header, payload)
    requires Concat(stream) == header + payload + rest
    ensures FirstStage(stream).Some?
    ensures var buf := PrefixBytes(stream, FirstStage(stream).value);
      |buf| >= |payload| + 4 && DeclaredLength(buf) == |payload| &&
      buf[4..4 + |payload|] == payload
  {
    var all := Concat(stream);
    assert all[2] == header[2] && all[3] == header[3];
    PrefixBytesAll(stream);
    assert FirstStageDone(PrefixBytes(stream, |stream|));
    var n := FirstStage(stream).value;
    var buf := PrefixBytes(stream, n);
    PrefixBytesPrefix(stream, n);
    assert buf == all[..|buf|];
    assert buf[2] == all[2] && buf[3] == all[3];
    assert buf[4..4 + |payload|] == all[4..4 + |payload|];
  }

  /** Small replies: however the header and a payload of at most 60 bytes are split into
      reports, and whatever follows them, receiveCommand resolves with the payload. */
  lemma ReceiveSmallReply(stream: seq<Chunk>, header: seq<byte>, payload: seq<byte>, rest: seq<byte>)
    requires IsReplyHeader(header, payload) && |payload| <= FirstReportPayload
    requires Concat(stream) == header + payload + rest
    ensures Receive(stream).result == Ok(payload)
  {
    FirstStageOnReply(stream, header, payload, rest);
    var n := FirstStage(stream).value;
    var buf := PrefixBytes(stream, n);
    assert DeclaredLength(buf) == |payload| <= FirstReportPayload;
    assert Receive(stream) == Reply(Ok(buf[4..4 + |payload|]), n);
  }

  /** Large replies: the result is every byte received after the header, in arrival
      order and never cut to the declared length, and holds at least dataLength bytes
      from the first stage plus dataLength - 60 from the continuation. */
  lemma ReceiveLargeReply(stream: seq<Chunk>)
    requires Receive(stream).result.Ok?
    ensures var r := Receive(stream);
      var received := PrefixBytes(stream, r.used);
      |received| >= 4 &&
      (DeclaredLength(received) > FirstReportPayload ==>
        r.result.value == received[4..] &&
        |r.result.value| >= 2 * DeclaredLength(received) - FirstReportPayload)
  {
    ReceiveOkShape(stream);
    var n := FirstStage(stream).value;
    var buf := PrefixBytes(stream, n);
    var dataLength := DeclaredLength(buf);
    if dataLength > FirstReportPayload {
      var m := Continuation(dataLength - FirstReportPayload, stream[n..]).value;
      ReceiveLargeUnfold(stream, n, m);
      PrefixBytesJoin(stream, n, m);
      var received := PrefixBytes(stream, n + m);
      assert received == buf + PrefixBytes(stream[n..], m);
      assert received[2] == buf[2] && received[3] == buf[3];
      assert received[4..] == buf[4..] + PrefixBytes(stream[n..], m);
    } else {
      ReceiveSmallUnfold(stream, n);
    }
  }

  /** A resolved reply depends only on the reports it consumed: reports that the same
      wait would have seen after it resolved change neither the data nor the number of
      reports taken. */
  lemma ReceiveIgnoresLaterReports(stream: seq<Chunk>, more: seq<Chunk>)
    requires Receive(stream).result.Ok?
    ensures Receive(stream + more) == Receive(stream)
  {
    ReceiveOkShape(stream);
    var n := FirstStage(stream).value;
    var longer := stream + more;
    forall j | 0 <= j <= n
      ensures PrefixBytes(longer, j) == PrefixBytes(stream, j)
    {
      PrefixBytesExtend(stream, more, j);
    }
    FirstStageAt(longer, n);
    var dataLength := DeclaredLength(PrefixBytes(stream, n));
    if dataLength > FirstReportPayload {
      var owed := dataLength - FirstReportPayload;
      var m := Continuation(owed, stream[n..]).value;
      assert longer[n..] == stream[n..] + more;
      forall j | 0 <= j <= m
        ensures PrefixBytes(longer[n..], j) == PrefixBytes(stream[n..], j)
      {
        PrefixBytesExtend(stream[n..], more, j);
      }
      ContinuationAt(owed, longer[n..], m);
      ReceiveLargeUnfold(stream, n, m);
      ReceiveLargeUnfold(longer, n, m);
    } else {
      ReceiveSmallUnfold(stream, n);
      ReceiveSmallUnfold(longer, n);
    }
  }

  /** Finding, as written: a large reply whose reports carry exactly its header and
      payload never resolves, because the continuation loop waits for dataLength - 60
      bytes beyond the payload the first stage already collected. */
  lemma LargeReplyOverwaits(stream: seq<Chunk>, header: seq<byte>, payload: seq<byte>)
    requires IsReplyHeader(header, payload) && |payload| > FirstReportPayload
    requires Concat(stream) == header + payload
    ensures Receive(stream).result == Err(ContinuationTimeout)
  {
    FirstStageOnReply(stream, header, payload, []);
    assert header + payload + [] == header + payload;
    var n := FirstStage(stream).value;
    var tail := stream[n..];
    ConcatSplit(stream, n);
    assert |Concat(tail)| == 0;
    var owed := |payload| - FirstReportPayload;
    forall j | 0 <= j <= |tail|
      ensures |PrefixBytes(tail, j)| < owed
    {
      PrefixBytesPrefix(tail, j);
    }
    assert Continuation(owed, tail).None?;
  }

  /** Finding, corrected: whatever the declared length, however the header and payload
      are split into reports, and whatever follows them, the corrected reassembly
      resolves with exactly the payload. */
  lemma ReceiveCorrectedDeliversPayload(stream: seq<Chunk>, header: seq<byte>, payload: seq<byte>, rest: seq<byte>)
    requires IsReplyHeader(header, payload)
    requires Concat(stream) == header + payload + rest
    ensures ReceiveCorrected(stream).result == Ok(payload)
  {
    FirstStageOnReply(stream, header, payload, rest);
  }

  /** The two reassemblies part only on replies declaring more than 60 bytes: the size
      and configuration replies the driver reads are handled identically by both. */
  lemma ReceiveCorrectedDiffersOnlyOnLarge(stream: seq<Chunk>)
    ensures Receive(stream) != ReceiveCorrected(stream) ==>
      FirstStage(stream).Some? &&
      DeclaredLength(PrefixBytes(stream, FirstStage(stream).value)) > FirstReportPayload
  {
    if FirstStage(stream).Some? {
      var n := FirstStage(stream).value;
      if DeclaredLength(PrefixBytes(stream, n)) <= FirstReportPayload {
        ReceiveSmallUnfold(stream, n);
      }
    }
  }
}
