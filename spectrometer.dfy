/** The Spectrometer class: connection state, the write and read commands over a HID
    device, and the three public commands built on them. The browser's HIDDevice is
    stood in for by a class whose behaviour is fixed by its fields. */
module Driver {
  import opened Bytes
  import opened Results
  import opened Frame
  import opened Combine
  import opened Configuration
  import opened Reassembly
  import opened Transfer

  /** One call of sendReport: the report id and the bytes handed over. */
  datatype Report = Report(reportId: byte, data: seq<byte>)

  /** The reports of k chunk requests. */
  function ChunkRequests(k: nat): (rs: seq<Report>)
    ensures |rs| == k
  {
    seq(k, _ => Report(ReportId, ChunkRequest()))
  }

  lemma ChunkRequestsSnoc(k: nat)
    ensures ChunkRequests(k + 1) == ChunkRequests(k) + [Report(ReportId, ChunkRequest())]
  {
  }

  /** The HID device the browser hands out. Whether open() and sendReport() resolve is
      fixed when it is created; the input reports that will arrive while a wait is
      listening are in `inbox`, in arrival order, and every report it accepted is logged
      in `reports`. */
  class HidDevice {
    const openSucceeds: bool
    const writable: bool
    var isOpen: bool
    var reports: seq<Report>
    var inbox: seq<Chunk>

    constructor (openSucceeds: bool, writable: bool, inbox: seq<Chunk>)
      ensures this.openSucceeds == openSucceeds && this.writable == writable
      ensures !isOpen && reports == [] && this.inbox == inbox
    {
      this.openSucceeds := openSucceeds;
      this.writable := writable;
      isOpen := false;
      reports := [];
      this.inbox := inbox;
    }

    /** device.open(): resolves (true) or rejects (false). */
    method Open() returns (ok: bool)
      modifies this`isOpen
      ensures ok == openSucceeds
      ensures isOpen == (old(isOpen) || ok)
    {
      ok := openSucceeds;
      if ok {
        isOpen := true;
      }
    }

    /** device.sendReport(reportId, data): resolves (true) after logging the report, or
        rejects (false) without sending anything. */
    method SendReport(reportId: byte, data: seq<byte>) returns (ok: bool)
      modifies this`reports
      ensures ok == writable
      ensures reports == if ok then old(reports) + [Report(reportId, data)] else old(reports)
    {
      ok := writable;
      if ok {
        reports := reports + [Report(reportId, data)];
      }
    }

    /** Waiting for the next "inputreport" event: the next report in arrival order, or
        None when no more reports will come, which is where a timer fires. */
    method NextInputReport() returns (report: Option<Chunk>)
      modifies this`inbox
      ensures old(inbox) == [] ==> report == None && inbox == []
      ensures old(inbox) != [] ==> report == Some(old(inbox)[0]) && inbox == old(inbox)[1..]
    {
      if inbox == [] {
        report := None;
      } else {
        report := Some(inbox[0]);
        inbox := inbox[1..];
      }
    }
  }

  class Spectrometer {
    const vendorId: int
    const productId: int
    var device: HidDevice?
    var isConnected: bool

    /** A connected spectrometer has a device. */
    ghost predicate Valid()
      reads this
    {
      isConnected ==> device != null
    }

    constructor (vendorId: int, productId: int)
      ensures Valid()
      ensures this.vendorId == vendorId && this.productId == productId
      ensures device == null && !isConnected
    {
      this.vendorId := vendorId;
      this.productId := productId;
      device := null;
      isConnected := false;
    }

    /** connect(): `devices` is what navigator.hid.requestDevice resolved with for this
        vendor and product. The first device is kept and opened; isConnected becomes true
        only once open() has resolved, and false on every failure. */
    method Connect(devices: seq<HidDevice>) returns (r: Result<()>)
      modifies this, if devices == [] then {} else {devices[0]}
      ensures Valid()
      ensures devices == [] ==> r == Err(NoDeviceFound) && !isConnected && device == old(device)
      ensures devices != [] ==>
        device == devices[0] &&
        isConnected == devices[0].openSucceeds &&
        r == (if isConnected then Ok(()) else Err(OpenFailed)) &&
        devices[0].isOpen == (old(devices[0].isOpen) || isConnected) &&
        devices[0].reports == old(devices[0].reports) && devices[0].inbox == old(devices[0].inbox)
    {
      if devices == [] {
        isConnected := false;
        return Err(NoDeviceFound);
      }
      device := devices[0];
      var didOpen := device.Open();
      if !didOpen {
        isConnected := false;
        return Err(OpenFailed);
      }
      isConnected := true;
      r := Ok(());
    }

    /** sendCommand: one write frame (flags 0x40) under report id 0, then the settle
        delay. Nothing is read back. */
    method SendCommand(groupByte: byte, commandByte: byte, data: seq<byte>) returns (r: Result<()>)
      requires device != null
      modifies device`reports
      ensures r == if device.writable then Ok(()) else Err(WriteFailed)
      ensures device.reports == old(device.reports) +
        (if device.writable then [Report(ReportId, BuildFrame(WriteFlags, groupByte, commandByte, data))] else [])
    {
      var payload := BuildFrame(WriteFlags, groupByte, commandByte, data);
      var sent := device.SendReport(ReportId, payload);
      if !sent {
        return Err(WriteFailed);
      }
      r := Ok(());
    }

    /** receiveCommand: one read frame (flags 0xC0) under report id 0, then the reply
        reassembled from the input reports that follow, as Receive describes it. */
    method ReceiveCommand(groupByte: byte, commandByte: byte, data: seq<byte>) returns (r: Result<seq<byte>>)
      requires device != null
      modifies device`reports, device`inbox
      ensures !device.writable ==>
        r == Err(WriteFailed) && device.reports == old(device.reports) && device.inbox == old(device.inbox)
      ensures device.writable ==>
        var reply := Receive(old(device.inbox));
        r == reply.result &&
        device.inbox == old(device.inbox)[reply.used..] &&
        device.reports == old(device.reports) + [Report(ReportId, BuildFrame(ReadFlags, groupByte, commandByte, data))]
    {
      var payload := BuildFrame(ReadFlags, groupByte, commandByte, data);
      var sent := device.SendReport(ReportId, payload);
      if !sent {
        return Err(WriteFailed);
      }

      ghost var stream := device.inbox;
      var responseData := AwaitResponse();
      if responseData.Err? {
        ReceiveFirstStageFails(stream);
        return Err(responseData.error);
      }
      ghost var n := FirstStage(stream).value;
      var header := responseData.value[..4];
      var dataLength := DeclaredLength(header);
      var dataRequested: seq<byte>;
      if dataLength > FirstReportPayload {
        var remainingLength: int := dataLength - FirstReportPayload;
        var collected := ReadContinuation(responseData.value[4..], remainingLength);
        if collected.Err? {
          ReceiveContinuationFails(stream, n);
          return Err(collected.error);
        }
        dataRequested := collected.value;
        ghost var m := Continuation(remainingLength, stream[n..]).value;
        ReceiveLargeUnfold(stream, n, m);
        assert stream[n..][m..] == stream[n + m..];
      } else {
        dataRequested := responseData.value[4..4 + dataLength];
        ReceiveSmallUnfold(stream, n);
      }
      r := Ok(dataRequested);
    }

    /** The first promise of receiveCommand: every input report is appended to readData
        until it holds the header and the declared number of bytes after it; readData is
        then the resolved value. */
    method AwaitResponse() returns (r: Result<seq<byte>>)
      requires device != null
      modifies device`inbox
      ensures var first := FirstStage(old(device.inbox));
        (first.None? ==>
          r == Err(if old(device.inbox) == [] then FirstChunkTimeout else Stalled) &&
          device.inbox == []) &&
        (first.Some? ==>
          r == Ok(PrefixBytes(old(device.inbox), first.value)) &&
          device.inbox == old(device.inbox)[first.value..])
    {
      ghost var stream := device.inbox;
      var readData: seq<byte> := [];
      ghost var n := 0;
      PrefixBytesZero(stream);
      var resolved := false;
      var timerCleared := false;
      while !resolved
        invariant n <= |stream| && device.inbox == stream[n..]
        invariant readData == PrefixBytes(stream, n)
        invariant forall j :: 0 <= j < n ==> !FirstStageDone(PrefixBytes(stream, j))
        invariant resolved <==> FirstStageDone(readData)
        invariant timerCleared <==> 1 <= n
        invariant resolved ==> 1 <= n
        decreases |device.inbox|
      {
        var report := device.NextInputReport();
        if report.None? {
          assert n == |stream|;
          // the response timer only fires while no report has arrived; after the first
          // one it is cleared and the promise never settles
          return Err(if timerCleared then Stalled else FirstChunkTimeout);
        }
        timerCleared := true;
        PrefixBytesSnoc(stream, n);
        readData := readData + report.value;
        n := n + 1;
        if |readData| >= 4 {
          var header := readData[..4];
          var dataLength := DeclaredLength(header);
          if |readData| >= dataLength + 4 {
            resolved := true;
          }
        }
      }
      FirstStageAt(stream, n);
      r := Ok(readData);
    }

    /** The continuation loop of receiveCommand: while bytes are still owed, the next
        input report is appended whole to dataRequested and its length taken off what is
        owed; a missing report is the 5 s timeout. */
    method ReadContinuation(dataRequested: seq<byte>, remainingLength: int) returns (r: Result<seq<byte>>)
      requires device != null
      modifies device`inbox
      ensures var rest := Continuation(remainingLength, old(device.inbox));
        (rest.None? ==> r == Err(ContinuationTimeout) && device.inbox == []) &&
        (rest.Some? ==>
          r == Ok(dataRequested + PrefixBytes(old(device.inbox), rest.value)) &&
          device.inbox == old(device.inbox)[rest.value..])
    {
      ghost var stream := device.inbox;
      ghost var m := 0;
      PrefixBytesZero(stream);
      var collected := dataRequested;
      var owed := remainingLength;
      while owed > 0
        invariant m <= |stream| && device.inbox == stream[m..]
        invariant owed == remainingLength - |PrefixBytes(stream, m)|
        invariant collected == dataRequested + PrefixBytes(stream, m)
        invariant forall j :: 0 <= j < m ==> |PrefixBytes(stream, j)| < remainingLength
        decreases |device.inbox|
      {
        var additionalData := device.NextInputReport();
        if additionalData.None? {
          assert m == |stream|;
          return Err(ContinuationTimeout);
        }
        PrefixBytesSnoc(stream, m);
        collected := collected + additionalData.value;
        owed := owed - |additionalData.value|;
        m := m + 1;
      }
      ContinuationAt(remainingLength, stream, m);
      r := Ok(collected);
    }

    /** getFile: refused before any I/O when not connected; otherwise the size exchange and
        then chunk requests until the bytes read reach the size, as FetchFile describes. */
    method GetFile(fileToRead: byte) returns (r: Result<seq<byte>>)
      requires Valid()
      modifies device
      ensures device != null ==> device.isOpen == old(device.isOpen)
      ensures !isConnected ==> r == Err(NotConnected) && (device != null ==> unchanged(device))
      ensures isConnected && !device.writable ==> r == Err(WriteFailed) && unchanged(device)
      ensures isConnected && device.writable ==>
        var d := FetchFile(old(device.inbox));
        r == d.result &&
        device.inbox == old(device.inbox)[d.used..] &&
        device.reports == old(device.reports) + [Report(ReportId, SizeRequest(fileToRead))] +
          ChunkRequests(d.requests)
    {
      if !isConnected {
        return Err(NotConnected);
      }
      ghost var stream := device.inbox;
      ghost var reports0 := device.reports;
      var dataSize := ReceiveCommand(FileGroup, SizeCommand, [fileToRead]);
      if dataSize.Err? {
        return Err(dataSize.error);
      }
      var reversed := Reverse(dataSize.value);
      var dataSizeCombined := ShiftBytes(reversed);

      ghost var rest := device.inbox;
      assert rest == stream[Receive(stream).used..];
      r := ReadChunks(dataSizeCombined);
    }

    /** getFile's loop: chunk requests, each chunk appended to fileData, until the bytes
        read reach `dataSizeCombined`, as DownloadFrom describes it. It runs after the size
        request went through, so the device accepts writes. */
    method ReadChunks(dataSizeCombined: int) returns (r: Result<seq<byte>>)
      requires device != null && device.writable
      modifies device`reports, device`inbox
      ensures var d := DownloadFrom(dataSizeCombined, [], old(device.inbox));
        r == d.result &&
        device.inbox == old(device.inbox)[d.used..] &&
        device.reports == old(device.reports) + ChunkRequests(d.requests)
    {
      ghost var rest := device.inbox;
      ghost var reports1 := device.reports;
      ghost var whole := DownloadFrom(dataSizeCombined, [], rest);
      var fileData: seq<byte> := [];
      var totalBytesRead := 0;
      ghost var received: seq<Chunk> := [];
      ghost var consumed := 0;
      while totalBytesRead < dataSizeCombined
        invariant totalBytesRead == |fileData| && fileData == Concat(received)
        invariant consumed <= |rest| && device.inbox == rest[consumed..]
        invariant device.reports == reports1 + ChunkRequests(|received|)
        invariant var d := DownloadFrom(dataSizeCombined, received, device.inbox);
          d.result == whole.result && d.chunks == whole.chunks &&
          |received| + d.requests == whole.requests && consumed + d.used == whole.used
        decreases |device.inbox|
      {
        ghost var before := device.inbox;
        var chunk := ReceiveCommand(FileGroup, ChunkCommand, []);
        ChunkRequestsSnoc(|received|);
        if chunk.Err? {
          DownloadFails(dataSizeCombined, received, before);
          return Err(chunk.error);
        }
        DownloadStep(dataSizeCombined, received, before);
        fileData := fileData + chunk.value;
        totalBytesRead := totalBytesRead + |chunk.value|;
        received := received + [chunk.value];
        consumed := consumed + Receive(before).used;
        assert rest[consumed..] == before[Receive(before).used..];
      }
      DownloadDone(dataSizeCombined, received, device.inbox);
      r := Ok(fileData);
    }

    /** performScan: refused before any I/O when not connected; otherwise the write
        command group 0x02, command 0x18, data [0x00]. */
    method PerformScan() returns (r: Result<()>)
      requires Valid()
      modifies device
      ensures device != null ==> device.isOpen == old(device.isOpen)
      ensures !isConnected ==> r == Err(NotConnected) && (device != null ==> unchanged(device))
      ensures isConnected ==>
        r == (if device.writable then Ok(()) else Err(WriteFailed)) &&
        device.inbox == old(device.inbox) &&
        device.reports == old(device.reports) +
          (if device.writable then [Report(0x00, [0x40, 0x00, 0x03, 0x00, 0x18, 0x02, 0x00])] else [])
    {
      if !isConnected {
        return Err(NotConnected);
      }
      assert BuildFrame(WriteFlags, 0x02, 0x18, [0x00]) == [0x40, 0x00, 0x03, 0x00, 0x18, 0x02, 0x00];
      r := SendCommand(0x02, 0x18, [0x00]);
    }

    /** getConfiguration: refused before any I/O when not connected; otherwise the read
        command group 0x02, command 0x23, and the reply parsed by parseConfigurationData. */
    method GetConfiguration() returns (r: Result<ScanConfiguration>)
      requires Valid()
      modifies device
      ensures device != null ==> device.isOpen == old(device.isOpen)
      ensures !isConnected ==> r == Err(NotConnected) && (device != null ==> unchanged(device))
      ensures isConnected && !device.writable ==> r == Err(WriteFailed) && unchanged(device)
      ensures isConnected && device.writable ==>
        var reply := Receive(old(device.inbox));
        r == (if reply.result.Ok? then Ok(ParseConfigurationData(reply.result.value)) else Err(reply.result.error)) &&
        device.inbox == old(device.inbox)[reply.used..] &&
        device.reports == old(device.reports) + [Report(0x00, [0xC0, 0x00, 0x02, 0x00, 0x23, 0x02])]
    {
      if !isConnected {
        return Err(NotConnected);
      }
      assert BuildFrame(ReadFlags, 0x02, 0x23, []) == [0xC0, 0x00, 0x02, 0x00, 0x23, 0x02];
      var configData := ReceiveCommand(0x02, 0x23, []);
      if configData.Err? {
        return Err(configData.error);
      }
      r := Ok(ParseConfigurationData(configData.value));
    }
  }
}
